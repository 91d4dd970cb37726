/** The rendered SQL mirror of the readiness rule, and the proof that it selects the same rows. */
module ReadinessSql {
  import opened Text
  import opened Sql
  import R = Readiness

  // ----- what a row says, NULL read as the zero value -----

  function EvidenceOf(row: Row): R.Evidence {
    R.Evidence(row.layer.GetOr(""), row.forkHash.GetOr(""), row.forkNext.GetOr(0),
               row.enrDigest.GetOr(""), row.enrNextVersion.GetOr(""), row.enrNextEpoch.GetOr(0))
  }

  /** Absent, a block number above the head, or a time still to come. */
  predicate Ahead(next: Uint64, unix: int) {
    || next == 0
    || FORK_HEAD_BLOCK < next <= R.TIMESTAMP_THRESHOLD
    || (next > R.TIMESTAMP_THRESHOLD && next > unix)
  }

  /** The currency test the SQL makes: the stored text itself, in lower case, against the hash. */
  predicate SqlRowCurrent(row: Row, forks: R.NetworkForks, unix: int) {
    && row.forkHash.Some?
    && ((row.layer == Some("el") && ToLower(row.forkHash.value) == EncodeHex(forks.el)
         && Ahead(row.forkNext.GetOr(0), unix))
        || (row.layer == Some("cl") && forks.cl.Some? && ToLower(row.forkHash.value) == EncodeHex(forks.cl.value)))
  }

  predicate SqlCurrent(row: Row, nets: map<string, R.NetworkForks>, networks: seq<string>, unix: int) {
    row.network.Some? && row.network.value in networks && row.network.value in nets
    && SqlRowCurrent(row, nets[row.network.value], unix)
  }

  // ----- the current-fork condition -----

  const NEXT_OR_ZERO := Coalesce(Col(ForkNext), Num(0))
  const LOWERED_HASH := LowerOf(Col(ForkHash))

  function LayerIs(layer: string): Cond {
    Cmp(Eq, Col(Layer), Lit(Str(layer)))
  }

  const HASH_IS := Cmp(Eq, LOWERED_HASH, Param)

  lemma HashIsTruth(v: string, row: Row)
    ensures Params(HASH_IS) == 1
    ensures Eval(HASH_IS, row, [Str(v)])
            == (if row.forkHash.None? then Undefined else Truthy(ToLower(row.forkHash.value) == v))
  {
    BindCmp(Eq, LOWERED_HASH, Str(v), row);
  }

  lemma LayerIsTruth(layer: string, row: Row)
    ensures Params(LayerIs(layer)) == 0
    ensures Eval(LayerIs(layer), row, []) == (if row.layer.None? then Undefined else Truthy(row.layer.value == layer))
  {
  }

  /** One network's part: the network and then each layer's own test. */
  function PartOf(network: Cond, onEl: Cond, elHash: Cond, tests: Cond, onCl: Cond, clHash: Cond): Cond {
    And(network, Or(And(And(onEl, elHash), tests), And(onCl, clHash)))
  }

  function CurrentPart(tests: Cond): Cond {
    PartOf(Cmp(Eq, Col(Network), Param), LayerIs("el"), HASH_IS, tests, LayerIs("cl"), HASH_IS)
  }

  lemma PartOfTruth(network: Cond, onEl: Cond, elHash: Cond, tests: Cond, onCl: Cond, clHash: Cond,
                    name: Value, el: Value, bounds: seq<Value>, cl: Value, row: Row)
    requires Params(network) == Params(elHash) == Params(clHash) == 1
    requires Params(onEl) == Params(onCl) == 0 && |bounds| == Params(tests)
    ensures var args := [name, el] + bounds + [cl]; var part := PartOf(network, onEl, elHash, tests, onCl, clHash);
            && |args| == Params(part)
            && Eval(part, row, args) ==
                 And3(Eval(network, row, [name]),
                      Or3(And3(And3(Eval(onEl, row, []), Eval(elHash, row, [el])), Eval(tests, row, bounds)),
                          And3(Eval(onCl, row, []), Eval(clHash, row, [cl]))))
  {
    ELSideTruth(onEl, elHash, tests, el, bounds, row);
    CLSideTruth(onCl, clHash, cl, row);
    var elSide, clSide := And(And(onEl, elHash), tests), And(onCl, clHash);
    BindBoth(elSide, clSide, row, [el] + bounds, [cl]);
    BindBoth(network, Or(elSide, clSide), row, [name], [el] + bounds + [cl]);
    assert [name] + ([el] + bounds + [cl]) == [name, el] + bounds + [cl];
  }

  lemma ELSideTruth(onEl: Cond, elHash: Cond, tests: Cond, el: Value, bounds: seq<Value>, row: Row)
    requires Params(onEl) == 0 && Params(elHash) == 1 && |bounds| == Params(tests)
    ensures var side := And(And(onEl, elHash), tests);
            && |[el] + bounds| == Params(side)
            && Eval(side, row, [el] + bounds) ==
                 And3(And3(Eval(onEl, row, []), Eval(elHash, row, [el])), Eval(tests, row, bounds))
  {
    BindBoth(onEl, elHash, row, [], [el]);
    assert [] + [el] == [el];
    BindBoth(And(onEl, elHash), tests, row, [el], bounds);
  }

  lemma CLSideTruth(onCl: Cond, clHash: Cond, cl: Value, row: Row)
    requires Params(onCl) == 0 && Params(clHash) == 1
    ensures Params(And(onCl, clHash)) == 1
    ensures Eval(And(onCl, clHash), row, [cl]) == And3(Eval(onCl, row, []), Eval(clHash, row, [cl]))
  {
    BindBoth(onCl, clHash, row, [], [cl]);
    assert [] + [cl] == [cl];
  }

  /** A part is TRUE exactly on the current rows of its network. */
  lemma CurrentPartTruth(tests: Cond, bounds: seq<Value>, name: string, forks: R.NetworkForks, unix: int, row: Row)
    requires |bounds| == Params(tests) && forks.cl.Some?
    requires Eval(tests, row, bounds) == Truthy(Ahead(row.forkNext.GetOr(0), unix))
    ensures var args := PartArgs(name, forks, bounds);
            && |args| == Params(CurrentPart(tests))
            && (Eval(CurrentPart(tests), row, args) == True <==>
                  row.network == Some(name) && SqlRowCurrent(row, forks, unix))
  {
    var network := Cmp(Eq, Col(Network), Param);
    var el, cl := EncodeHex(forks.el), EncodeHex(forks.cl.value);
    HashIsTruth(el, row);
    HashIsTruth(cl, row);
    LayerIsTruth("el", row);
    LayerIsTruth("cl", row);
    BindCmp(Eq, Col(Network), Str(name), row);
    PartOfTruth(network, LayerIs("el"), HASH_IS, tests, LayerIs("cl"), HASH_IS, Str(name), Str(el), bounds, Str(cl),
                row);
    assert "el" != "cl";
  }

  function PartArgs(name: string, forks: R.NetworkForks, bounds: seq<Value>): seq<Value>
    requires forks.cl.Some?
  {
    [Str(name), Str(EncodeHex(forks.el))] + bounds + [Str(EncodeHex(forks.cl.value))]
  }

  predicate InBands(row: Row, ranges: seq<(nat, nat)>) {
    exists i :: 0 <= i < |ranges| && ranges[i].0 <= row.forkNext.GetOr(0) <= ranges[i].1
  }

  lemma InBandsSnoc(row: Row, ranges: seq<(nat, nat)>, k: nat)
    requires k < |ranges|
    ensures InBands(row, ranges[..k + 1]) <==>
            InBands(row, ranges[..k]) || ranges[k].0 <= row.forkNext.GetOr(0) <= ranges[k].1
  {
    if InBands(row, ranges[..k]) {
      var i :| 0 <= i < k && ranges[..k][i].0 <= row.forkNext.GetOr(0) <= ranges[..k][i].1;
      assert ranges[..k + 1][i] == ranges[..k][i];
    }
    assert ranges[..k + 1][k] == ranges[k];
  }

  /** One accepted band of Next values; the open-ended top band renders without an upper bound. */
  method NextTests(unix: int) returns (tests: Cond, bounds: seq<Value>)
    ensures |bounds| == Params(tests)
    ensures forall row :: Eval(tests, row, bounds) == Truthy(R.NextAccepted(row.forkNext.GetOr(0), unix))
    ensures forall row :: Eval(tests, row, bounds) == Truthy(Ahead(row.forkNext.GetOr(0), unix))
  {
    forall next ensures R.NextAccepted(next, unix) <==> Ahead(next, unix) { R.NextAcceptedExactly(next, unix); }
    var ranges := R.CurrentNextRanges(unix);
    var parts: seq<Cond> := [];
    bounds := [];
    for k := 0 to |ranges|
      invariant |parts| == k
      invariant k > 0 ==> |bounds| == Params(AnyOf(parts))
      invariant k == 0 ==> bounds == []
      invariant k > 0 ==> forall row :: Eval(AnyOf(parts), row, bounds) == Truthy(InBands(row, ranges[..k]))
    {
      var low := Cmp(Ge, NEXT_OR_ZERO, Param);
      var test, args := low, [Num(ranges[k].0)];
      if ranges[k].1 != MAX_UINT64 {
        test, args := And(low, Cmp(Le, NEXT_OR_ZERO, Param)), args + [Num(ranges[k].1)];
      }
      forall row ensures Eval(test, row, args) == Truthy(ranges[k].0 <= row.forkNext.GetOr(0) <= ranges[k].1) {
        BindCmp(Ge, NEXT_OR_ZERO, Num(ranges[k].0), row);
        BindCmp(Le, NEXT_OR_ZERO, Num(ranges[k].1), row);
        BindBoth(low, Cmp(Le, NEXT_OR_ZERO, Param), row, [Num(ranges[k].0)], [Num(ranges[k].1)]);
      }
      forall row ensures k > 0 ==> Eval(Or(AnyOf(parts), test), row, bounds + args)
                                   == Or3(Eval(AnyOf(parts), row, bounds), Eval(test, row, args)) {
        if k > 0 { BindBoth(AnyOf(parts), test, row, bounds, args); }
      }
      forall row ensures InBands(row, ranges[..k + 1]) <==>
                         InBands(row, ranges[..k]) || ranges[k].0 <= row.forkNext.GetOr(0) <= ranges[k].1 {
        InBandsSnoc(row, ranges, k);
      }
      assert (parts + [test])[..k] == parts;
      assert k == 0 ==> bounds + args == args;
      parts, bounds := parts + [test], bounds + args;
    }
    assert ranges[..|ranges|] == ranges;
    tests := AnyOf(parts);
  }

  // ----- the filter under construction: parts joined by OR, arguments in textual order -----

  datatype Filter = Filter(parts: seq<Cond>, args: seq<Value>)

  predicate WellBound(f: Filter) {
    if f.parts == [] then f.args == [] else |f.args| == Params(AnyOf(f.parts))
  }

  /** The filter selects the row: its condition is TRUE, not merely not FALSE. */
  predicate Selects(f: Filter, row: Row)
    requires WellBound(f)
  {
    f.parts != [] && Eval(AnyOf(f.parts), row, f.args) == True
  }

  function AddCond(f: Filter, part: Cond, args: seq<Value>): Filter {
    Filter(f.parts + [part], f.args + args)
  }

  lemma AddCondSelects(f: Filter, part: Cond, args: seq<Value>, row: Row)
    requires WellBound(f) && |args| == Params(part)
    ensures WellBound(AddCond(f, part, args))
    ensures Selects(AddCond(f, part, args), row) <==> Selects(f, row) || Eval(part, row, args) == True
  {
    var parts := f.parts + [part];
    assert parts[..|parts| - 1] == f.parts;
    if f.parts == [] {
      assert f.args + args == args;
    } else {
      BindBoth(AnyOf(f.parts), part, row, f.args, args);
    }
  }

  const EMPTY_ROW := Row(None, None, None, None, None, None, None)

  lemma SqlCurrentSnoc(row: Row, nets: map<string, R.NetworkForks>, networks: seq<string>, name: string, unix: int)
    requires name in nets
    ensures SqlCurrent(row, nets, networks + [name], unix) <==>
            SqlCurrent(row, nets, networks, unix) || (row.network == Some(name) && SqlRowCurrent(row, nets[name], unix))
  {
  }

  ghost predicate SelectsCurrent(f: Filter, nets: map<string, R.NetworkForks>, networks: seq<string>, unix: int) {
    WellBound(f) && forall row :: Selects(f, row) <==> SqlCurrent(row, nets, networks, unix)
  }

  lemma AddNetwork(f: Filter, nets: map<string, R.NetworkForks>, networks: seq<string>, unix: int,
                   name: string, tests: Cond, bounds: seq<Value>)
    requires name in nets && nets[name].cl.Some? && |bounds| == Params(tests)
    requires forall row :: Eval(tests, row, bounds) == Truthy(Ahead(row.forkNext.GetOr(0), unix))
    requires SelectsCurrent(f, nets, networks, unix)
    ensures SelectsCurrent(AddCond(f, CurrentPart(tests), PartArgs(name, nets[name], bounds)), nets,
                           networks + [name], unix)
  {
    var part, args := CurrentPart(tests), PartArgs(name, nets[name], bounds);
    CurrentPartTruth(tests, bounds, name, nets[name], unix, EMPTY_ROW);
    AddCondSelects(f, part, args, EMPTY_ROW);
    forall row ensures Selects(AddCond(f, part, args), row) <==> SqlCurrent(row, nets, networks + [name], unix) {
      CurrentPartTruth(tests, bounds, name, nets[name], unix, row);
      AddCondSelects(f, part, args, row);
      SqlCurrentSnoc(row, nets, networks, name, unix);
    }
  }

  /** currentForkConditionAt: an error when a network is unknown or has no consensus state, and otherwise
      a condition that is never NULL and true exactly on the current rows of the listed networks. */
  method CurrentForkConditionAt(nets: map<string, R.NetworkForks>, unix: int, networks: seq<string>)
    returns (r: Option<(Cond, seq<Value>)>)
    ensures r.Some? <==> forall n :: n in networks ==> n in nets && nets[n].cl.Some?
    ensures r.Some? ==> |r.value.1| == Params(r.value.0)
    ensures r.Some? ==> forall row :: Eval(r.value.0, row, r.value.1) == Truthy(SqlCurrent(row, nets, networks, unix))
    ensures r.Some? ==> forall row: Row ::
      row.layer == Some("el") && R.TIMESTAMP_THRESHOLD < row.forkNext.GetOr(0) <= unix ==>
        Eval(r.value.0, row, r.value.1) == False
  {
    var tests, bounds := NextTests(unix);
    var f := Filter([], []);
    for k := 0 to |networks|
      invariant forall i :: 0 <= i < k ==> networks[i] in nets && nets[networks[i]].cl.Some?
      invariant |f.parts| == k && SelectsCurrent(f, nets, networks[..k], unix)
    {
      var name := networks[k];
      if name !in nets || nets[name].cl.None? {
        return None;
      }
      AddNetwork(f, nets, networks[..k], unix, name, tests, bounds);
      assert networks[..k + 1] == networks[..k] + [name];
      f := AddCond(f, CurrentPart(tests), PartArgs(name, nets[name], bounds));
    }
    assert networks[..|networks|] == networks;
    if f.parts == [] {
      return Some((Bool(false), []));
    }
    NeverNull(f, nets, networks, unix);
    return Some((OrFalse(AnyOf(f.parts)), f.args));
  }

  lemma NeverNull(f: Filter, nets: map<string, R.NetworkForks>, networks: seq<string>, unix: int)
    requires SelectsCurrent(f, nets, networks, unix) && f.parts != []
    requires forall i :: 0 <= i < |networks| ==> networks[i] in nets && nets[networks[i]].cl.Some?
    ensures |f.args| == Params(OrFalse(AnyOf(f.parts)))
    ensures forall row :: Eval(OrFalse(AnyOf(f.parts)), row, f.args) == Truthy(SqlCurrent(row, nets, networks, unix))
  {
    forall row ensures Eval(OrFalse(AnyOf(f.parts)), row, f.args) == Truthy(SqlCurrent(row, nets, networks, unix)) {
      assert Selects(f, row) <==> SqlCurrent(row, nets, networks, unix);
    }
  }

  /** inList: membership after lower-casing. No value is in an empty list, so its condition is plainly false. */
  method InList(col: Scalar, values: seq<string>) returns (cond: Cond, args: seq<Value>)
    requires ScalarParams(col) == 0
    ensures |args| == Params(cond)
    ensures forall row :: ScalarValue(col, row, [], 0).Str? ==>
      Eval(cond, row, args)
      == Truthy(exists i :: 0 <= i < |values| && ToLower(values[i]) == ScalarValue(col, row, [], 0).s)
  {
    if values == [] {
      return Bool(false), [];
    }
    args := [];
    for k := 0 to |values|
      invariant |args| == k
      invariant forall i :: 0 <= i < k ==> args[i] == Str(ToLower(values[i]))
    {
      args := args + [Str(ToLower(values[k]))];
    }
    var items := seq(|values|, _ => Param);
    cond := In(col, items);
    forall row | ScalarValue(col, row, [], 0).Str?
      ensures |args| == Params(cond)
      ensures Eval(cond, row, args)
              == Truthy(exists i :: 0 <= i < |values| && ToLower(values[i]) == ScalarValue(col, row, [], 0).s)
    {
      var v := ScalarValue(col, row, [], 0);
      ScalarShift(col, row, args, 0, [], 0);
      BindIn(v, |values|, row, args, 0);
      assert args[0..] == args;
      assert v in args <==> exists i :: 0 <= i < |values| && ToLower(values[i]) == v.s;
    }
    BindIn(Str(""), |values|, EMPTY_ROW, args, 0);
  }

  function AddPart(f: Filter, layer: string, cond: Cond, args: seq<Value>): Filter {
    AddCond(f, And(LayerIs(layer), cond), args)
  }

  lemma AddPartSelects(f: Filter, layer: string, cond: Cond, args: seq<Value>, row: Row)
    requires WellBound(f) && |args| == Params(cond)
    ensures WellBound(AddPart(f, layer, cond, args))
    ensures Selects(AddPart(f, layer, cond, args), row) <==>
            Selects(f, row) || (row.layer == Some(layer) && Eval(cond, row, args) == True)
  {
    LayerIsTruth(layer, row);
    BindBoth(LayerIs(layer), cond, row, [], args);
    assert [] + args == args;
    AddCondSelects(f, And(LayerIs(layer), cond), args, row);
  }

  const LOWERED_HASH_OR_EMPTY := LowerOf(Coalesce(Col(ForkHash), Str("")))
  const LOWERED_DIGEST_OR_EMPTY := LowerOf(Coalesce(Col(EnrDigest), Str("")))
  const LOWERED_VERSION_OR_EMPTY := LowerOf(Coalesce(Col(EnrNextVersion), Str("")))
  const EPOCH_OR_ZERO := Coalesce(Col(EnrNextEpoch), Num(0))
  const HASH_DIFFERS := Cmp(Ne, LOWERED_HASH_OR_EMPTY, Param)

  lemma HashDiffersTruth(v: string, row: Row)
    ensures Params(HASH_DIFFERS) == 1
    ensures Eval(HASH_DIFFERS, row, [Str(v)]) == Truthy(ToLower(row.forkHash.GetOr("")) != v)
  {
    var present := Coalesce(Col(ForkHash), Str(""));
    assert ScalarValue(present, row, [], 0) == Str(row.forkHash.GetOr(""));
    assert ScalarValue(LowerOf(present), row, [], 0) == Str(ToLower(row.forkHash.GetOr("")));
    BindCmp(Ne, LOWERED_HASH_OR_EMPTY, Str(v), row);
  }

  /** A row still on the pre-fork hash, its schedule readable, and a condition on its claim. */
  lemma OnPreTruth(current: Cond, currentArgs: seq<Value>, isPre: Cond, pre: Value, readable: Cond,
                   readableArgs: seq<Value>, claim: Cond, claimArgs: seq<Value>, row: Row)
    requires |currentArgs| == Params(current) && Params(isPre) == 1
    requires |readableArgs| == Params(readable) && |claimArgs| == Params(claim)
    ensures var onPre := And(Not(current), isPre);
            var args := currentArgs + ([pre] + readableArgs);
            var all := currentArgs + ([pre] + readableArgs + claimArgs);
            && |args| == Params(And(onPre, readable))
            && Eval(And(onPre, readable), row, args) ==
                 And3(And3(Not3(Eval(current, row, currentArgs)), Eval(isPre, row, [pre])),
                      Eval(readable, row, readableArgs))
            && |all| == Params(And(And(onPre, readable), claim))
            && Eval(And(And(onPre, readable), claim), row, all) ==
                 And3(Eval(And(onPre, readable), row, args), Eval(claim, row, claimArgs))
  {
    var onPre := And(Not(current), isPre);
    BindBoth(Not(current), isPre, row, currentArgs, [pre]);
    BindBoth(onPre, readable, row, currentArgs + [pre], readableArgs);
    BindBoth(And(onPre, readable), claim, row, currentArgs + [pre] + readableArgs, claimArgs);
    assert currentArgs + [pre] + readableArgs == currentArgs + ([pre] + readableArgs);
    assert currentArgs + ([pre] + readableArgs) + claimArgs == currentArgs + ([pre] + readableArgs + claimArgs);
  }

  /** The `activated` closure: rows still on the pre-fork hash are told apart by their own claim. */
  function AddActivated(f: Filter, want: R.Readiness, layer: string, current: Cond, currentArgs: seq<Value>,
                        pre: string,
                        readable: Cond, readableArgs: seq<Value>, scheduled: Cond, scheduledArgs: seq<Value>): Filter {
    var onPre := And(Not(current), HASH_IS);
    match want
    case Ready => AddPart(f, layer, current, currentArgs)
    case Pending =>
      AddPart(f, layer, And(And(onPre, readable), scheduled), currentArgs + ([Str(pre)] + readableArgs + scheduledArgs))
    case NotReady =>
      AddPart(f, layer, And(And(onPre, readable), Not(scheduled)),
              currentArgs + ([Str(pre)] + readableArgs + scheduledArgs))
    case Unknown => AddPart(f, layer, And(onPre, Not(readable)), currentArgs + ([Str(pre)] + readableArgs))
    case Stale =>
      AddPart(f, layer, And(Not(current), HASH_DIFFERS), currentArgs + [Str(pre)])
    case Mismatch => f
  }

  /** The states told apart by a claim among rows still on the pre-fork hash. */
  lemma AddOnPreSelects(f: Filter, want: R.Readiness, layer: string, current: Cond, currentArgs: seq<Value>,
                        pre: string, readable: Cond, readableArgs: seq<Value>, scheduled: Cond,
                        scheduledArgs: seq<Value>, row: Row, cur: bool, rd: bool, sc: bool)
    requires want.Pending? || want.NotReady? || want.Unknown?
    requires WellBound(f) && R.LowerHex(pre)
    requires |currentArgs| == Params(current) && Eval(current, row, currentArgs) == Truthy(cur)
    requires |readableArgs| == Params(readable) && Eval(readable, row, readableArgs) == Truthy(rd)
    requires |scheduledArgs| == Params(scheduled) && Eval(scheduled, row, scheduledArgs) == Truthy(sc)
    ensures var g := AddActivated(f, want, layer, current, currentArgs, pre, readable, readableArgs, scheduled,
                                  scheduledArgs);
            && WellBound(g)
            && (Selects(g, row) <==>
                Selects(f, row)
                || (row.layer == Some(layer)
                    && R.ActivatedReadiness(cur, row.forkHash.GetOr(""), pre, rd, sc) == want))
  {
    var onPre, p := And(Not(current), HASH_IS), Str(pre);
    HashIsTruth(pre, row);
    var claimed := currentArgs + ([p] + readableArgs + scheduledArgs);
    if want.Pending? {
      OnPreTruth(current, currentArgs, HASH_IS, p, readable, readableArgs, scheduled, scheduledArgs, row);
      AddPartSelects(f, layer, And(And(onPre, readable), scheduled), claimed, row);
    } else if want.NotReady? {
      OnPreTruth(current, currentArgs, HASH_IS, p, readable, readableArgs, Not(scheduled), scheduledArgs, row);
      AddPartSelects(f, layer, And(And(onPre, readable), Not(scheduled)), claimed, row);
    } else {
      OnPreTruth(current, currentArgs, HASH_IS, p, Not(readable), readableArgs, scheduled, scheduledArgs, row);
      AddPartSelects(f, layer, And(onPre, Not(readable)), currentArgs + ([p] + readableArgs), row);
    }
  }

  lemma AddActivatedSelects(f: Filter, want: R.Readiness, layer: string, current: Cond, currentArgs: seq<Value>,
                            pre: string, readable: Cond, readableArgs: seq<Value>, scheduled: Cond,
                            scheduledArgs: seq<Value>, row: Row, cur: bool, rd: bool, sc: bool)
    requires WellBound(f) && R.LowerHex(pre)
    requires |currentArgs| == Params(current) && Eval(current, row, currentArgs) == Truthy(cur)
    requires |readableArgs| == Params(readable) && Eval(readable, row, readableArgs) == Truthy(rd)
    requires |scheduledArgs| == Params(scheduled) && Eval(scheduled, row, scheduledArgs) == Truthy(sc)
    ensures var g := AddActivated(f, want, layer, current, currentArgs, pre, readable, readableArgs, scheduled,
                                  scheduledArgs);
            && WellBound(g)
            && (Selects(g, row) <==>
                Selects(f, row)
                || (row.layer == Some(layer) && R.ActivatedReadiness(cur, row.forkHash.GetOr(""), pre, rd, sc) == want))
  {
    if want.Pending? || want.NotReady? || want.Unknown? {
      AddOnPreSelects(f, want, layer, current, currentArgs, pre, readable, readableArgs, scheduled, scheduledArgs,
                      row, cur, rd, sc);
    } else {
      ActivatedOthers(row.forkHash.GetOr(""), pre, cur, rd, sc);
      AddPartSelects(f, layer, current, currentArgs, row);
      AddOffBothSelects(f, layer, current, currentArgs, pre, row, cur);
    }
  }

  lemma ActivatedOthers(hash: string, pre: string, cur: bool, rd: bool, sc: bool)
    ensures var r := R.ActivatedReadiness(cur, hash, pre, rd, sc);
            (r.Ready? <==> cur) && (r.Stale? <==> !cur && !EqualFold(hash, pre)) && !r.Mismatch?
  {
  }

  /** Rows neither current nor on the pre-fork hash. */
  lemma AddOffBothSelects(f: Filter, layer: string, current: Cond, currentArgs: seq<Value>, pre: string, row: Row,
                          cur: bool)
    requires WellBound(f) && R.LowerHex(pre)
    requires |currentArgs| == Params(current) && Eval(current, row, currentArgs) == Truthy(cur)
    ensures var g := AddPart(f, layer, And(Not(current), HASH_DIFFERS), currentArgs + [Str(pre)]);
            && WellBound(g)
            && (Selects(g, row) <==>
                Selects(f, row)
                || (row.layer == Some(layer) && !cur && !EqualFold(row.forkHash.GetOr(""), pre)))
  {
    HashDiffersTruth(pre, row);
    BindBoth(Not(current), HASH_DIFFERS, row, currentArgs, [Str(pre)]);
    AddPartSelects(f, layer, And(Not(current), HASH_DIFFERS), currentArgs + [Str(pre)], row);
  }

  /** The `cancelled` closure: an affected row is not ready whether or not it is current, so that part
      alone carries no current-fork arguments. */
  function AddCancelled(f: Filter, want: R.Readiness, layer: string, current: Cond, currentArgs: seq<Value>,
                        affected: Cond, affectedArgs: seq<Value>, matched: Cond): Filter {
    match want
    case NotReady => AddPart(f, layer, affected, affectedArgs)
    case Ready => AddPart(f, layer, And(And(current, Not(affected)), matched), currentArgs + affectedArgs)
    case Unknown =>
      if matched != Bool(true) then
        AddPart(f, layer, And(And(current, Not(affected)), Not(matched)), currentArgs + affectedArgs)
      else f
    case Stale => AddPart(f, layer, And(Not(current), Not(affected)), currentArgs + affectedArgs)
    case Pending => f
    case Mismatch => f
  }

  lemma AddCancelledSelects(f: Filter, want: R.Readiness, layer: string, current: Cond, currentArgs: seq<Value>,
                            affected: Cond, affectedArgs: seq<Value>, matched: Cond, row: Row,
                            cur: bool, af: bool, rd: bool)
    requires WellBound(f)
    requires |currentArgs| == Params(current) && Eval(current, row, currentArgs) == Truthy(cur)
    requires |affectedArgs| == Params(affected) && Eval(affected, row, affectedArgs) == Truthy(af)
    requires Params(matched) == 0 && (cur ==> Eval(matched, row, []) == Truthy(rd))
    ensures var g := AddCancelled(f, want, layer, current, currentArgs, affected, affectedArgs, matched);
            && WellBound(g)
            && (Selects(g, row) <==>
                Selects(f, row) || (row.layer == Some(layer) && R.CancelledReadiness(cur, af, rd) == want))
  {
    var spared := And(current, Not(affected));
    BindBoth(current, Not(affected), row, currentArgs, affectedArgs);
    BindBoth(Not(current), Not(affected), row, currentArgs, affectedArgs);
    BindBoth(spared, matched, row, currentArgs + affectedArgs, []);
    BindBoth(spared, Not(matched), row, currentArgs + affectedArgs, []);
    assert currentArgs + affectedArgs + [] == currentArgs + affectedArgs;
    match want {
      case NotReady => AddPartSelects(f, layer, affected, affectedArgs, row);
      case Ready => AddPartSelects(f, layer, And(spared, matched), currentArgs + affectedArgs, row);
      case Unknown =>
        if matched != Bool(true) {
          AddPartSelects(f, layer, And(spared, Not(matched)), currentArgs + affectedArgs, row);
        }
      case Stale => AddPartSelects(f, layer, And(Not(current), Not(affected)), currentArgs + affectedArgs, row);
      case Pending =>
      case Mismatch =>
    }
  }

  // ----- the atoms of each layer's condition -----

  const NEXT_IS := Cmp(Eq, NEXT_OR_ZERO, Param)
  const HASH_OR_EMPTY_IS := Cmp(Eq, LOWERED_HASH_OR_EMPTY, Param)
  const DIGEST_IS := Cmp(Eq, LOWERED_DIGEST_OR_EMPTY, Param)
  const EPOCH_IS := Cmp(Eq, EPOCH_OR_ZERO, Param)
  const VERSION_IS := Cmp(Eq, LOWERED_VERSION_OR_EMPTY, Param)
  const FAR_FUTURE := Cmp(Eq, EPOCH_OR_ZERO, Lit(Num(MAX_UINT64)))
  const NEXT_NOT_IN := Not(In(NEXT_OR_ZERO, [Lit(Num(0)), Param]))
  const DIGEST_PRESENT := Cmp(Ne, Coalesce(Col(EnrDigest), Str("")), Lit(Str("")))
  const DIGEST_IS_HASH := Cmp(Eq, LowerOf(Col(EnrDigest)), LOWERED_HASH)
  const MATCHED := And(DIGEST_PRESENT, DIGEST_IS_HASH)
  const CLAIMS_FORK := And(EPOCH_IS, VERSION_IS)

  lemma TextTruth(c: Column, v: string, row: Row)
    ensures var e := LowerOf(Coalesce(Col(c), Str("")));
            var x := ColumnValue(row, c);
            && Params(Cmp(Eq, e, Param)) == 1
            && ScalarValue(e, row, [], 0)
               == (if x.Null? then Str(ToLower("")) else if x.Str? then Str(ToLower(x.s)) else Null)
            && (x.Null? || x.Str? ==>
                  Eval(Cmp(Eq, e, Param), row, [Str(v)]) == Truthy(ToLower(if x.Null? then "" else x.s) == v))
  {
    var present := Coalesce(Col(c), Str(""));
    var x := ColumnValue(row, c);
    assert ScalarValue(present, row, [], 0) == if x.Null? then Str("") else x;
    assert ScalarValue(LowerOf(present), row, [], 0)
           == if x.Null? then Str(ToLower("")) else if x.Str? then Str(ToLower(x.s)) else Null;
    BindCmp(Eq, LowerOf(present), Str(v), row);
  }

  lemma NextTruth(v: int, row: Row)
    ensures Params(NEXT_IS) == 1
    ensures Eval(NEXT_IS, row, [Num(v)]) == Truthy(row.forkNext.GetOr(0) == v)
  {
    BindCmp(Eq, NEXT_OR_ZERO, Num(v), row);
  }

  lemma NextNotInTruth(v: int, row: Row)
    ensures Params(NEXT_NOT_IN) == 1
    ensures Eval(NEXT_NOT_IN, row, [Num(v)]) == Truthy(row.forkNext.GetOr(0) != 0 && row.forkNext.GetOr(0) != v)
  {
    var items := [Lit(Num(0)), Param];
    assert items[1..] == [Param] && items[1..][1..] == [];
    assert ItemParams(items[1..]) == 1 && ItemParams(items) == 1;
    var x := Num(row.forkNext.GetOr(0));
    assert ScalarValue(NEXT_OR_ZERO, row, [Num(v)], 0) == x;
    assert InValues(x, items[1..], row, [Num(v)], 0) == Truthy(x == Num(v));
    assert InValues(x, items, row, [Num(v)], 0) == Or3(Truthy(x == Num(0)), Truthy(x == Num(v)));
    assert EvalAt(In(NEXT_OR_ZERO, items), row, [Num(v)], 0) == InValues(x, items, row, [Num(v)], 0);
  }

  lemma ClaimTruth(cl: R.CLTarget, row: Row)
    requires R.LowerHex(cl.version)
    ensures Params(CLAIMS_FORK) == 2
    ensures Eval(CLAIMS_FORK, row, [Num(cl.epoch), Str(cl.version)]) == Truthy(R.Advertises(cl, EvidenceOf(row)))
  {
    BindCmp(Eq, EPOCH_OR_ZERO, Num(cl.epoch), row);
    TextTruth(EnrNextVersion, cl.version, row);
    BindBoth(EPOCH_IS, VERSION_IS, row, [Num(cl.epoch)], [Str(cl.version)]);
    assert [Num(cl.epoch)] + [Str(cl.version)] == [Num(cl.epoch), Str(cl.version)];
  }

  lemma MatchedTruth(row: Row)
    ensures Params(MATCHED) == 0
    ensures row.forkHash.Some? ==> Eval(MATCHED, row, []) == Truthy(R.ScheduleReadable(EvidenceOf(row)))
  {
    var digest := Coalesce(Col(EnrDigest), Str(""));
    assert ScalarValue(digest, row, [], 0) == Str(row.enrDigest.GetOr(""));
    CompareUnbound(Ne, digest, Lit(Str("")), row);
    CompareUnbound(Eq, LowerOf(Col(EnrDigest)), LOWERED_HASH, row);
    var none: seq<Value> := [];
    BindBoth(DIGEST_PRESENT, DIGEST_IS_HASH, row, none, none);
    assert none + none == none;
  }

  lemma FarFutureTruth(row: Row)
    ensures Params(FAR_FUTURE) == 0
    ensures Eval(FAR_FUTURE, row, []) == Truthy(row.enrNextEpoch.GetOr(0) == MAX_UINT64)
  {
    assert ScalarValue(EPOCH_OR_ZERO, row, [], 0) == Num(row.enrNextEpoch.GetOr(0));
    CompareUnbound(Eq, EPOCH_OR_ZERO, Lit(Num(MAX_UINT64)), row);
  }

  lemma ELAffectedTruth(el: R.ELTarget, onList: Cond, onArgs: seq<Value>, row: Row)
    requires R.LowerHex(el.preHash) && |onArgs| == Params(onList)
    requires Eval(onList, row, onArgs) == Truthy(ContainsFold(el.onCancelled, row.forkHash.GetOr("")))
    ensures var affected := Or(onList, And(HASH_OR_EMPTY_IS, NEXT_IS));
            var args := onArgs + [Str(el.preHash), Num(el.time)];
            |args| == Params(affected) && Eval(affected, row, args) == Truthy(R.ELAffected(el, EvidenceOf(row)))
  {
    TextTruth(ForkHash, el.preHash, row);
    NextTruth(el.time, row);
    BindBoth(HASH_OR_EMPTY_IS, NEXT_IS, row, [Str(el.preHash)], [Num(el.time)]);
    assert [Str(el.preHash)] + [Num(el.time)] == [Str(el.preHash), Num(el.time)];
    BindBoth(onList, And(HASH_OR_EMPTY_IS, NEXT_IS), row, onArgs, [Str(el.preHash), Num(el.time)]);
  }

  lemma CLAffectedTruth(cl: R.CLTarget, onList: Cond, onArgs: seq<Value>, row: Row)
    requires R.LowerHex(cl.preDigest) && R.LowerHex(cl.version) && |onArgs| == Params(onList)
    requires Eval(onList, row, onArgs) == Truthy(ContainsFold(cl.onCancelled, row.forkHash.GetOr("")))
    ensures var affected := Or(onList, And(DIGEST_IS, CLAIMS_FORK));
            var args := onArgs + [Str(cl.preDigest), Num(cl.epoch), Str(cl.version)];
            |args| == Params(affected) && Eval(affected, row, args) == Truthy(R.CLAffected(cl, EvidenceOf(row)))
  {
    TextTruth(EnrDigest, cl.preDigest, row);
    ClaimTruth(cl, row);
    var mine := [Str(cl.preDigest), Num(cl.epoch), Str(cl.version)];
    BindBoth(DIGEST_IS, CLAIMS_FORK, row, [Str(cl.preDigest)], [Num(cl.epoch), Str(cl.version)]);
    assert [Str(cl.preDigest)] + [Num(cl.epoch), Str(cl.version)] == mine;
    BindBoth(onList, And(DIGEST_IS, CLAIMS_FORK), row, onArgs, mine);
  }

  // ----- one layer at a time -----

  /** The currency condition the whole filter is built around. */
  datatype Currency = Currency(nets: map<string, R.NetworkForks>, network: string, unix: int, cond: Cond,
                               args: seq<Value>)
  {
    ghost predicate Exact() {
      && |args| == Params(cond)
      && forall row :: Eval(cond, row, args) == Truthy(Of(row))
    }

    predicate Of(row: Row) {
      SqlCurrent(row, nets, [network], unix)
    }
  }

  /** g selects what f selected, plus the rows of one layer with the wanted readiness. */
  ghost predicate AddsLayer(g: Filter, f: Filter, layer: string, c: Currency, rule: (R.Evidence, bool) -> R.Readiness,
                            want: R.Readiness) {
    && WellBound(g) && WellBound(f)
    && forall row :: Selects(g, row) <==>
                     Selects(f, row) || (row.layer == Some(layer) && rule(EvidenceOf(row), c.Of(row)) == want)
  }

  function AddELScheduled(f: Filter, want: R.Readiness, c: Currency, time: Uint64): Filter {
    match want
    case Ready => AddPart(f, "el", And(c.cond, NEXT_IS), c.args + [Num(time)])
    case NotReady => AddPart(f, "el", And(c.cond, Cmp(Eq, NEXT_OR_ZERO, Lit(Num(0)))), c.args)
    case Mismatch => AddPart(f, "el", And(c.cond, NEXT_NOT_IN), c.args + [Num(time)])
    case Stale => AddPart(f, "el", Not(c.cond), c.args)
    case Pending => f
    case Unknown => f
  }

  lemma AddELScheduledSelects(f: Filter, want: R.Readiness, c: Currency, el: R.ELTarget, row: Row)
    requires WellBound(f) && c.Exact() && el.phase.Scheduled? && el.time > 0
    ensures var g := AddELScheduled(f, want, c, el.time);
            WellBound(g) && (Selects(g, row) <==>
              Selects(f, row) || (row.layer == Some("el") && R.ELReadiness(el, EvidenceOf(row), c.Of(row)) == want))
  {
    assert Eval(c.cond, row, c.args) == Truthy(c.Of(row));
    match want {
      case Ready =>
        NextTruth(el.time, row);
        BindBoth(c.cond, NEXT_IS, row, c.args, [Num(el.time)]);
        AddPartSelects(f, "el", And(c.cond, NEXT_IS), c.args + [Num(el.time)], row);
      case NotReady =>
        var zero := Cmp(Eq, NEXT_OR_ZERO, Lit(Num(0)));
        CompareUnbound(Eq, NEXT_OR_ZERO, Lit(Num(0)), row);
        BindBoth(c.cond, zero, row, c.args, []);
        assert c.args + [] == c.args;
        AddPartSelects(f, "el", And(c.cond, zero), c.args, row);
      case Mismatch =>
        NextNotInTruth(el.time, row);
        BindBoth(c.cond, NEXT_NOT_IN, row, c.args, [Num(el.time)]);
        AddPartSelects(f, "el", And(c.cond, NEXT_NOT_IN), c.args + [Num(el.time)], row);
      case Stale => AddPartSelects(f, "el", Not(c.cond), c.args, row);
      case Pending =>
      case Unknown =>
    }
  }

  method AddEL(f: Filter, want: R.Readiness, c: Currency, el: R.ELTarget) returns (g: Filter)
    requires WellBound(f) && c.Exact() && R.LowerHex(el.preHash) && (el.phase.Scheduled? ==> el.time > 0)
    ensures AddsLayer(g, f, "el", c, (ev, cur) => R.ELReadiness(el, ev, cur), want)
  {
    match el.phase {
      case Cancelled =>
        var onList, onArgs := InList(LOWERED_HASH_OR_EMPTY, el.onCancelled);
        var affected, args := Or(onList, And(HASH_OR_EMPTY_IS, NEXT_IS)), onArgs + [Str(el.preHash), Num(el.time)];
        g := AddCancelled(f, want, "el", c.cond, c.args, affected, args, Bool(true));
        forall row ensures WellBound(g) && (Selects(g, row) <==>
          Selects(f, row) || (row.layer == Some("el") && R.ELReadiness(el, EvidenceOf(row), c.Of(row)) == want))
        {
          TextTruth(ForkHash, "", row);
          ELAffectedTruth(el, onList, onArgs, row);
          AddCancelledSelects(f, want, "el", c.cond, c.args, affected, args, Bool(true), row,
                              c.Of(row), R.ELAffected(el, EvidenceOf(row)), true);
        }
      case Activated =>
        var sched := [Num(el.time)];
        g := AddActivated(f, want, "el", c.cond, c.args, el.preHash, Bool(true), [], NEXT_IS, sched);
        forall row ensures WellBound(g) && (Selects(g, row) <==>
          Selects(f, row) || (row.layer == Some("el") && R.ELReadiness(el, EvidenceOf(row), c.Of(row)) == want))
        {
          NextTruth(el.time, row);
          AddActivatedSelects(f, want, "el", c.cond, c.args, el.preHash, Bool(true), [], NEXT_IS, sched, row,
                              c.Of(row), true, row.forkNext.GetOr(0) == el.time);
        }
      case Scheduled =>
        g := AddELScheduled(f, want, c, el.time);
        forall row ensures WellBound(g) && (Selects(g, row) <==>
          Selects(f, row) || (row.layer == Some("el") && R.ELReadiness(el, EvidenceOf(row), c.Of(row)) == want))
        {
          AddELScheduledSelects(f, want, c, el, row);
        }
    }
    assert WellBound(g) by {
      assert Selects(g, EMPTY_ROW) || !Selects(g, EMPTY_ROW);
    }
  }

  function AddCLScheduled(f: Filter, want: R.Readiness, c: Currency, epoch: Uint64, version: string): Filter {
    var claim := [Num(epoch), Str(version)];
    var readable := And(c.cond, MATCHED);
    match want
    case Ready => AddPart(f, "cl", And(readable, CLAIMS_FORK), c.args + claim)
    case NotReady => AddPart(f, "cl", And(readable, FAR_FUTURE), c.args)
    case Mismatch => AddPart(f, "cl", And(And(readable, Not(CLAIMS_FORK)), Not(FAR_FUTURE)), c.args + claim)
    case Unknown => AddPart(f, "cl", And(c.cond, Not(MATCHED)), c.args)
    case Stale => AddPart(f, "cl", Not(c.cond), c.args)
    case Pending => f
  }

  /** What the scheduled consensus filter adds, wanted state by wanted state. */
  ghost predicate AddsCLScheduled(f: Filter, want: R.Readiness, c: Currency, cl: R.CLTarget, row: Row)
    requires WellBound(f) && c.Exact() && cl.epoch < MAX_UINT64
  {
    var g := AddCLScheduled(f, want, c, cl.epoch, cl.version);
    WellBound(g) && (Selects(g, row) <==>
      Selects(f, row) || (row.layer == Some("cl") && R.CLReadiness(cl, EvidenceOf(row), c.Of(row)) == want))
  }

  /** Of four conjuncts the first and the third have arguments. */
  lemma FourTruth(a: Cond, b: Cond, c: Cond, d: Cond, x: seq<Value>, y: seq<Value>, row: Row)
    requires |x| == Params(a) && |y| == Params(c) && Params(b) == Params(d) == 0
    ensures var all := And(And(And(a, b), c), d);
            && |x + y| == Params(all)
            && Eval(all, row, x + y) ==
                 And3(And3(And3(Eval(a, row, x), Eval(b, row, [])), Eval(c, row, y)), Eval(d, row, []))
  {
    assert x + [] == x && x + y + [] == x + y;
    BindBoth(a, b, row, x, []);
    BindBoth(And(a, b), c, row, x, y);
    BindBoth(And(And(a, b), c), d, row, x + y, []);
  }

  lemma AddCLMismatchSelects(f: Filter, c: Currency, cl: R.CLTarget, row: Row)
    requires WellBound(f) && c.Exact() && cl.phase.Scheduled? && cl.epoch < MAX_UINT64 && R.LowerHex(cl.version)
    ensures AddsCLScheduled(f, R.Mismatch, c, cl, row)
  {
    assert Eval(c.cond, row, c.args) == Truthy(c.Of(row));
    var claim := [Num(cl.epoch), Str(cl.version)];
    MatchedTruth(row);
    ClaimTruth(cl, row);
    FarFutureTruth(row);
    FourTruth(c.cond, MATCHED, Not(CLAIMS_FORK), Not(FAR_FUTURE), c.args, claim, row);
    var all := And(And(And(c.cond, MATCHED), Not(CLAIMS_FORK)), Not(FAR_FUTURE));
    AddPartSelects(f, "cl", all, c.args + claim, row);
  }

  lemma AddCLScheduledSelects(f: Filter, want: R.Readiness, c: Currency, cl: R.CLTarget, row: Row)
    requires WellBound(f) && c.Exact() && cl.phase.Scheduled? && cl.epoch < MAX_UINT64 && R.LowerHex(cl.version)
    ensures AddsCLScheduled(f, want, c, cl, row)
  {
    if want.Mismatch? {
      AddCLMismatchSelects(f, c, cl, row);
    } else {
      assert Eval(c.cond, row, c.args) == Truthy(c.Of(row));
      var claim := [Num(cl.epoch), Str(cl.version)];
      var readable := And(c.cond, MATCHED);
      MatchedTruth(row);
      assert c.args + [] == c.args;
      BindBoth(c.cond, MATCHED, row, c.args, []);
      match want {
        case Ready =>
          ClaimTruth(cl, row);
          BindBoth(readable, CLAIMS_FORK, row, c.args, claim);
          AddPartSelects(f, "cl", And(readable, CLAIMS_FORK), c.args + claim, row);
        case NotReady =>
          FarFutureTruth(row);
          BindBoth(readable, FAR_FUTURE, row, c.args, []);
          AddPartSelects(f, "cl", And(readable, FAR_FUTURE), c.args, row);
        case Unknown =>
          BindBoth(c.cond, Not(MATCHED), row, c.args, []);
          AddPartSelects(f, "cl", And(c.cond, Not(MATCHED)), c.args, row);
        case Stale => AddPartSelects(f, "cl", Not(c.cond), c.args, row);
        case Pending =>
      }
    }
  }

  lemma AddCLScheduledLayer(f: Filter, want: R.Readiness, c: Currency, cl: R.CLTarget)
    requires WellBound(f) && c.Exact() && cl.phase.Scheduled? && cl.epoch < MAX_UINT64 && R.LowerHex(cl.version)
    ensures AddsLayer(AddCLScheduled(f, want, c, cl.epoch, cl.version), f, "cl", c,
                      (ev, cur) => R.CLReadiness(cl, ev, cur), want)
  {
    var g := AddCLScheduled(f, want, c, cl.epoch, cl.version);
    forall row ensures WellBound(g) && (Selects(g, row) <==>
      Selects(f, row) || (row.layer == Some("cl") && R.CLReadiness(cl, EvidenceOf(row), c.Of(row)) == want))
    {
      AddCLScheduledSelects(f, want, c, cl, row);
    }
    assert WellBound(g) by {
      assert Selects(g, EMPTY_ROW) || !Selects(g, EMPTY_ROW);
    }
  }

  method AddCLCancelled(f: Filter, want: R.Readiness, c: Currency, cl: R.CLTarget) returns (g: Filter)
    requires WellBound(f) && c.Exact() && R.LowerHex(cl.preDigest) && R.LowerHex(cl.version) && cl.phase.Cancelled?
    ensures AddsLayer(g, f, "cl", c, (ev, cur) => R.CLReadiness(cl, ev, cur), want)
  {
    var onList, onArgs := InList(LOWERED_HASH_OR_EMPTY, cl.onCancelled);
    var affected, args :=
      Or(onList, And(DIGEST_IS, CLAIMS_FORK)), onArgs + [Str(cl.preDigest), Num(cl.epoch), Str(cl.version)];
    g := AddCancelled(f, want, "cl", c.cond, c.args, affected, args, MATCHED);
    forall row ensures WellBound(g) && (Selects(g, row) <==>
      Selects(f, row) || (row.layer == Some("cl") && R.CLReadiness(cl, EvidenceOf(row), c.Of(row)) == want))
    {
      TextTruth(ForkHash, "", row);
      CLAffectedTruth(cl, onList, onArgs, row);
      MatchedTruth(row);
      AddCancelledSelects(f, want, "cl", c.cond, c.args, affected, args, MATCHED, row,
                          c.Of(row), R.CLAffected(cl, EvidenceOf(row)), R.ScheduleReadable(EvidenceOf(row)));
    }
    assert WellBound(g) by {
      assert Selects(g, EMPTY_ROW) || !Selects(g, EMPTY_ROW);
    }
  }

  method AddCLActivated(f: Filter, want: R.Readiness, c: Currency, cl: R.CLTarget) returns (g: Filter)
    requires WellBound(f) && c.Exact() && R.LowerHex(cl.preDigest) && R.LowerHex(cl.version) && cl.phase.Activated?
    ensures AddsLayer(g, f, "cl", c, (ev, cur) => R.CLReadiness(cl, ev, cur), want)
  {
    var pre, claim := [Str(cl.preDigest)], [Num(cl.epoch), Str(cl.version)];
    g := AddActivated(f, want, "cl", c.cond, c.args, cl.preDigest, DIGEST_IS, pre, CLAIMS_FORK, claim);
    forall row ensures WellBound(g) && (Selects(g, row) <==>
      Selects(f, row) || (row.layer == Some("cl") && R.CLReadiness(cl, EvidenceOf(row), c.Of(row)) == want))
    {
      TextTruth(EnrDigest, cl.preDigest, row);
      ClaimTruth(cl, row);
      AddActivatedSelects(f, want, "cl", c.cond, c.args, cl.preDigest, DIGEST_IS, pre, CLAIMS_FORK, claim, row,
                          c.Of(row),
                          EqualFold(row.enrDigest.GetOr(""), cl.preDigest), R.Advertises(cl, EvidenceOf(row)));
    }
    assert WellBound(g) by {
      assert Selects(g, EMPTY_ROW) || !Selects(g, EMPTY_ROW);
    }
  }

  method AddCL(f: Filter, want: R.Readiness, c: Currency, cl: R.CLTarget) returns (g: Filter)
    requires WellBound(f) && c.Exact() && R.LowerHex(cl.preDigest) && R.LowerHex(cl.version)
    requires cl.phase.Scheduled? ==> cl.epoch < MAX_UINT64
    ensures AddsLayer(g, f, "cl", c, (ev, cur) => R.CLReadiness(cl, ev, cur), want)
  {
    match cl.phase {
      case Cancelled => g := AddCLCancelled(f, want, c, cl);
      case Activated => g := AddCLActivated(f, want, c, cl);
      case Scheduled =>
        g := AddCLScheduled(f, want, c, cl.epoch, cl.version);
        AddCLScheduledLayer(f, want, c, cl);
    }
  }

  /** readinessConditionAt: the readiness filter of one network as text plus arguments. It is TRUE on a row
      exactly when the Go rule, given the same verdict on currency, returns the wanted state. */
  method ReadinessConditionAt(nets: map<string, R.NetworkForks>, target: R.ForkTarget, network: string,
                              want: R.Readiness, unix: int)
    returns (r: Option<(Cond, seq<Value>)>)
    requires R.ValidTarget(target)
    ensures r.Some? <==> network in nets && nets[network].cl.Some?
    ensures r.Some? ==> |r.value.1| == Params(r.value.0)
    ensures r.Some? ==> forall row :: Eval(r.value.0, row, r.value.1) == True <==>
                                      SqlReadiness(target, nets, network, unix, row) == Some(want)
  {
    var current := CurrentForkConditionAt(nets, unix, [network]);
    if current.None? {
      assert network in [network];
      return None;
    }
    assert network in [network];
    var c := Currency(nets, network, unix, current.value.0, current.value.1);
    var f := AddLayers(want, c, target);
    if f.parts == [] {
      forall row ensures SqlReadiness(target, nets, network, unix, row) != Some(want) {
        assert !Selects(f, row);
      }
      return Some((Bool(false), []));
    }
    Rendered(f);
    return Some((AnyOf(f.parts), f.args));
  }

  /** The parts of both layers the target tracks. */
  method AddLayers(want: R.Readiness, c: Currency, target: R.ForkTarget) returns (f: Filter)
    requires c.Exact() && R.ValidTarget(target)
    ensures WellBound(f)
    ensures forall row :: Selects(f, row) <==>
                          R.ReadinessGiven(target, EvidenceOf(row), c.Of(row)) == Some(want)
  {
    f := Filter([], []);
    if target.el.Some? {
      f := AddEL(f, want, c, target.el.value);
    }
    if target.cl.Some? {
      f := AddCL(f, want, c, target.cl.value);
    }
    assert "el" != "cl";
  }

  lemma Rendered(f: Filter)
    requires WellBound(f) && f.parts != []
    ensures |f.args| == Params(AnyOf(f.parts))
    ensures forall row :: Selects(f, row) <==> Eval(AnyOf(f.parts), row, f.args) == True
  {
  }

  /** The state the SQL filters assign to a row. */
  function SqlReadiness(target: R.ForkTarget, nets: map<string, R.NetworkForks>, network: string, unix: int, row: Row)
    : Option<R.Readiness>
  {
    R.ReadinessGiven(target, EvidenceOf(row), SqlCurrent(row, nets, [network], unix))
  }

  // ----- the two definitions of the rule -----

  /** The row carries a decorated spelling of the current hash: parseHash4 strips it, lower() does not. */
  predicate Decorated(forks: R.NetworkForks, unix: int, row: Row) {
    var ev := EvidenceOf(row);
    !Undecorated(ev.forkHash) && R.RowForkCurrent(ev.layer, forks, ev.forkHash, ev.forkNext, unix)
  }

  /** A row counted as still on a cancelled fork keeps its state whatever its currency. */
  predicate Affected(target: R.ForkTarget, row: Row) {
    var ev := EvidenceOf(row);
    if ev.layer == "el" && target.el.Some? then target.el.value.phase.Cancelled? && R.ELAffected(target.el.value, ev)
    else ev.layer == "cl" && target.cl.Some? && target.cl.value.phase.Cancelled? && R.CLAffected(target.cl.value, ev)
  }

  /** A tracked row is one to which the rule gives a state. */
  lemma TrackedExactly(target: R.ForkTarget, row: Row, current: bool)
    ensures Tracked(target, row) <==> R.ReadinessGiven(target, EvidenceOf(row), current).Some?
  {
  }

  lemma CurrencyAgrees(forks: R.NetworkForks, unix: int, row: Row)
    requires forks.cl.Some?
    ensures var ev := EvidenceOf(row);
            SqlRowCurrent(row, forks, unix) <==>
            R.RowForkCurrent(ev.layer, forks, ev.forkHash, ev.forkNext, unix) && Undecorated(ev.forkHash)
  {
    var raw := row.forkHash.GetOr("");
    ParsesToExactly(raw, forks.el);
    ParsesToExactly(raw, forks.cl.value);
    EncodedBare(raw, forks.el);
    EncodedBare(raw, forks.cl.value);
    R.NextAcceptedExactly(row.forkNext.GetOr(0), unix);
    assert |EncodeHex(forks.el)| == 8;
  }

  /** Text that lower() maps to a hash is that hash in hex, so it is undecorated. */
  lemma EncodedBare(raw: string, h: Hash4)
    ensures ToLower(raw) == EncodeHex(h) ==> Undecorated(raw)
  {
    if ToLower(raw) == EncodeHex(h) {
      HexDigitsOnly(h);
      forall i | 0 <= i < |raw| ensures !IsSpace(raw[i]) {
        assert HexValue(EncodeHex(h)[i]).Some? && Lower(raw[i]) == EncodeHex(h)[i];
      }
      assert TrimLeft(raw) == raw && TrimRight(raw) == raw;
      assert HexValue(EncodeHex(h)[1]).Some?;
    }
  }

  predicate Tracked(target: R.ForkTarget, row: Row) {
    (row.layer == Some("el") && target.el.Some?) || (row.layer == Some("cl") && target.cl.Some?)
  }

  /** The verdict on currency decides the state of every tracked row but an affected one. */
  lemma CurrencyDecides(target: R.ForkTarget, row: Row)
    requires Tracked(target, row)
    ensures R.ReadinessGiven(target, EvidenceOf(row), true) == R.ReadinessGiven(target, EvidenceOf(row), false)
            <==> Affected(target, row)
  {
    var ev := EvidenceOf(row);
    assert "el" != "cl" && ev.layer == row.layer.value;
    if row.layer == Some("el") {
      match target.el.value.phase case Scheduled => case Activated => case Cancelled =>
    } else {
      match target.cl.value.phase case Scheduled => case Activated => case Cancelled =>
    }
  }

  /** The SQL filters and ReadinessAt give a row of the network the same state if and only if the row does
      not carry a decorated spelling of the current hash, or is counted as on a cancelled fork anyway. */
  lemma SqlAgreesWithGo(target: R.ForkTarget, nets: map<string, R.NetworkForks>, network: string, unix: int, row: Row)
    requires network in nets && nets[network].cl.Some? && row.network == Some(network) && Tracked(target, row)
    ensures SqlReadiness(target, nets, network, unix, row)
            == R.ReadinessAt(target, nets[network], EvidenceOf(row), unix)
            <==> !Decorated(nets[network], unix, row) || Affected(target, row)
  {
    var forks, ev := nets[network], EvidenceOf(row);
    var go := R.RowForkCurrent(ev.layer, forks, ev.forkHash, ev.forkNext, unix);
    CurrencyAgrees(forks, unix, row);
    CurrencyDecides(target, row);
    assert network in [network];
    var sql := SqlCurrent(row, nets, [network], unix);
    assert sql == (go && Undecorated(ev.forkHash));
    assert SqlReadiness(target, nets, network, unix, row) == R.ReadinessGiven(target, ev, sql);
    assert R.ReadinessAt(target, forks, ev, unix) == R.ReadinessGiven(target, ev, go);
  }

  lemma PrefixedIsDecorated(h: Hash4)
    ensures Bare("0x" + EncodeHex(h)) == EncodeHex(h) && !Undecorated("0x" + EncodeHex(h))
  {
    var raw := "0x" + EncodeHex(h);
    EncodedIsUndecorated(h);
    HexDigitsOnly(h);
    assert HexValue(EncodeHex(h)[7]).Some?;
    assert TrimLeft(raw) == raw && TrimRight(raw) == raw;
    assert ToLower(raw) == "0x" + ToLower(EncodeHex(h));
    assert TrimHexPrefix("0x" + EncodeHex(h)) == EncodeHex(h);
    assert |ToLower(raw)| == 10;
  }

  /** A record that spells the current digest with a 0x prefix is ready to the Go rule and stale to the SQL. */
  lemma PrefixedHashDisagrees(digest: Hash4, el: Hash4, pre: string, unix: int)
    requires R.LowerHex(pre) && pre != "0x" + EncodeHex(digest)
    ensures var nets := map["net" := R.NetworkForks(el, Some(digest))];
            var target := R.ForkTarget(None, Some(R.CLTarget(9, "0a", R.Activated, pre, [])));
            var row := EMPTY_ROW.(network := Some("net"), layer := Some("cl"),
                                  forkHash := Some("0x" + EncodeHex(digest)));
            && R.ReadinessAt(target, nets["net"], EvidenceOf(row), unix) == Some(R.Ready)
            && SqlReadiness(target, nets, "net", unix, row) == Some(R.Stale)
  {
    var raw := "0x" + EncodeHex(digest);
    var forks := R.NetworkForks(el, Some(digest));
    var row := EMPTY_ROW.(network := Some("net"), layer := Some("cl"), forkHash := Some(raw));
    PrefixedIsDecorated(digest);
    EncodedIsUndecorated(digest);
    assert ToLower(raw) == "0x" + ToLower(EncodeHex(digest)) == raw;
    ParsesToExactly(raw, digest);
    CurrencyAgrees(forks, unix, row);
    assert "cl" != "el";
    assert !SqlCurrent(row, map["net" := forks], ["net"], unix);
  }

  const STATES: seq<R.Readiness> := [R.Ready, R.Pending, R.NotReady, R.Mismatch, R.Unknown, R.Stale]

  ghost predicate Passes(filter: (Cond, seq<Value>), row: Row) {
    |filter.1| == Params(filter.0) && Eval(filter.0, row, filter.1) == True
  }

  ghost predicate PassesExactlyOne(filters: seq<(Cond, seq<Value>)>, row: Row) {
    exists i :: 0 <= i < |filters| && Passes(filters[i], row)
                && forall j :: 0 <= j < |filters| && j != i ==> !Passes(filters[j], row)
  }

  /** The six filters of a network partition the rows of its tracked layers: each row satisfies exactly one. */
  method ReadinessFilters(nets: map<string, R.NetworkForks>, target: R.ForkTarget, network: string, unix: int)
    returns (filters: seq<(Cond, seq<Value>)>)
    requires R.ValidTarget(target) && network in nets && nets[network].cl.Some?
    ensures |filters| == |STATES|
    ensures forall row :: Tracked(target, row) ==> PassesExactlyOne(filters, row)
  {
    filters := [];
    for k := 0 to |STATES|
      invariant |filters| == k
      invariant forall i, row :: 0 <= i < k ==>
        (Passes(filters[i], row) <==> SqlReadiness(target, nets, network, unix, row) == Some(STATES[i]))
    {
      var f := ReadinessConditionAt(nets, target, network, STATES[k], unix);
      assert forall row :: Passes(f.value, row) <==> SqlReadiness(target, nets, network, unix, row) == Some(STATES[k]);
      filters := filters + [f.value];
    }
    forall row | Tracked(target, row) ensures PassesExactlyOne(filters, row) {
      var state := SqlReadiness(target, nets, network, unix, row);
      var i := IndexOfState(state.value);
      assert Passes(filters[i], row);
      forall j | 0 <= j < |filters| && j != i ensures !Passes(filters[j], row) {
        assert STATES[j] != STATES[i];
      }
    }
  }

  function IndexOfState(s: R.Readiness): (i: nat)
    ensures i < |STATES| && STATES[i] == s
  {
    match s case Ready => 0 case Pending => 1 case NotReady => 2 case Mismatch => 3 case Unknown => 4 case Stale => 5
  }
}
