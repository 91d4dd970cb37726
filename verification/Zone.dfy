/** Publishing an EIP-1459 tree into a live zone: the reconcile plan, and the state of the zone while plans
    are carried out one record at a time and may be cut off after any of them. */
module Zone {
  import opened Text
  import opened Collections
  import Txt

  // ----- the plan -----

  function DnsKey(name: string): string {
    ToLower(if name != "" && name[|name| - 1] == '.' then name[..|name| - 1] else name)
  }

  /** Names differ by one trailing dot and by case at most. */
  lemma KeysExactly(name: string)
    ensures (name == "" || name[|name| - 1] != '.') ==>
              DnsKey(name) == ToLower(name) && DnsKey(name + ".") == ToLower(name)
  {
    assert (name + ".")[..|name|] == name;
  }

  datatype SyncPlan = SyncPlan(wanted: map<string, string>, entries: seq<string>, writeRoot: bool, stale: seq<string>,
                               kept: nat)

  /** The records under their normalized names. Tree names differ in their hash, so no two share one. */
  ghost predicate IsNormal(wanted: map<string, string>, want: map<string, string>) {
    && (forall n :: n in want ==> DnsKey(n) in wanted && wanted[DnsKey(n)] == want[n])
    && (forall k :: k in wanted ==> exists n :: n in want && DnsKey(n) == k)
  }

  predicate DistinctKeys(want: map<string, string>) {
    forall a, b :: a in want && b in want && DnsKey(a) == DnsKey(b) ==> a == b
  }

  /** Names already in lower case and without a trailing dot are distinct keys. */
  lemma NormalNamesAreDistinct(want: map<string, string>)
    requires forall n :: n in want ==> DnsKey(n) == n
    ensures DistinctKeys(want)
  {
  }

  predicate NoDuplicates(s: seq<string>) {
    forall i, j :: 0 <= i < j < |s| ==> s[i] != s[j]
  }

  predicate UpToDate<R>(have: map<string, R>, name: string, content: string, same: (string, string, R) -> bool) {
    name in have && same(name, content, have[name])
  }

  function RetainedKeys(retain: map<string, string>): set<string> {
    set n | n in retain :: DnsKey(n)
  }

  ghost predicate IsPlan<R>(p: SyncPlan, have: map<string, R>, domain: string, want: map<string, string>,
                            retain: Option<map<string, string>>, same: (string, string, R) -> bool)
  {
    var root := DnsKey(domain);
    && IsNormal(p.wanted, want)
    && NoDuplicates(p.entries) && NoDuplicates(p.stale)
    && (forall n :: n in p.entries <==> n in p.wanted && n != root && !UpToDate(have, n, p.wanted[n], same))
    && (p.writeRoot <==> root in p.wanted && !UpToDate(have, root, p.wanted[root], same))
    && (forall n :: n in p.stale <==>
          retain.Some? && n in have && n !in p.wanted && n !in RetainedKeys(retain.value))
    && p.kept + |p.stale| == |have.Keys - p.wanted.Keys|
  }

  /** planSync. The order of entries and stale is immaterial here. */
  method PlanSync<R>(have: map<string, R>, domain: string, want: map<string, string>,
                     retain: Option<map<string, string>>, same: (string, string, R) -> bool) returns (p: SyncPlan)
    requires DistinctKeys(want)
    ensures IsPlan(p, have, domain, want, retain, same)
  {
    var wanted := Normalize(want);
    var root := DnsKey(domain);
    var entries := PlanWrites(have, root, wanted, same);
    var writeRoot := root in wanted && !UpToDate(have, root, wanted[root], same);
    var retained := if retain.Some? then RetainedKeys(retain.value) else {};
    var stale, kept := PlanDeletes(have.Keys, wanted.Keys, if retain.Some? then Some(retained) else None);
    p := SyncPlan(wanted, entries, writeRoot, stale, kept);
  }

  method PlanWrites<R>(have: map<string, R>, root: string, wanted: map<string, string>,
                       same: (string, string, R) -> bool)
    returns (entries: seq<string>)
    ensures NoDuplicates(entries)
    ensures forall n :: n in entries <==> n in wanted && n != root && !UpToDate(have, n, wanted[n], same)
  {
    entries := [];
    var todo := wanted.Keys;
    while todo != {}
      invariant todo <= wanted.Keys && NoDuplicates(entries)
      invariant forall n :: n in entries <==>
        n in wanted && n !in todo && n != root && !UpToDate(have, n, wanted[n], same)
      decreases |todo|
    {
      var name :| name in todo;
      if name != root && !UpToDate(have, name, wanted[name], same) {
        assert name !in entries;
        entries := entries + [name];
      }
      todo := todo - {name};
    }
  }

  /** A record outside the wanted tree goes unless it is retained; without a retain set nothing goes. */
  method PlanDeletes(have: set<string>, wanted: set<string>, retained: Option<set<string>>)
    returns (stale: seq<string>, kept: nat)
    ensures NoDuplicates(stale) && kept + |stale| == |have - wanted|
    ensures forall n :: n in stale <==> retained.Some? && n in have && n !in wanted && n !in retained.value
  {
    stale, kept := [], 0;
    var todo := have;
    while todo != {}
      invariant todo <= have && NoDuplicates(stale)
      invariant forall n :: n in stale <==>
                  retained.Some? && n in have && n !in todo && n !in wanted && n !in retained.value
      invariant kept + |stale| == |have - wanted - todo|
      decreases |todo|
    {
      var name :| name in todo;
      var rest := todo - {name};
      if name in wanted {
        assert have - wanted - rest == have - wanted - todo;
      } else {
        assert have - wanted - rest == (have - wanted - todo) + {name};
        if retained.Some? && name !in retained.value { stale := stale + [name]; } else { kept := kept + 1; }
      }
      todo := rest;
    }
    assert have - wanted - {} == have - wanted;
  }

  method Normalize(want: map<string, string>) returns (wanted: map<string, string>)
    requires DistinctKeys(want)
    ensures IsNormal(wanted, want)
  {
    wanted := map[];
    var todo := want.Keys;
    while todo != {}
      invariant todo <= want.Keys
      invariant forall n :: n in want && n !in todo ==> DnsKey(n) in wanted && wanted[DnsKey(n)] == want[n]
      invariant forall k :: k in wanted ==> exists n :: n in want && n !in todo && DnsKey(n) == k
      decreases |todo|
    {
      var name :| name in todo;
      wanted := wanted[DnsKey(name) := want[name]];
      todo := todo - {name};
    }
  }

  // ----- a plan carried out in full leaves nothing to do -----

  /** The zone after every change of the plan: written names hold what render makes of their content. */
  ghost predicate CarriedOut<R>(have': map<string, R>, have: map<string, R>, p: SyncPlan, root: string,
                                render: (string, string) -> R)
  {
    && (forall n :: n in have' <==> (n in have && n !in p.stale) || n in p.entries || (p.writeRoot && n == root))
    && (forall n :: n in have' ==>
          if n in p.wanted && (n in p.entries || (p.writeRoot && n == root)) then have'[n] == render(n, p.wanted[n])
          else n in have && have'[n] == have[n])
  }

  lemma NormalIsUnique(a: map<string, string>, b: map<string, string>, want: map<string, string>)
    requires IsNormal(a, want) && IsNormal(b, want)
    ensures a == b
  {
    forall k | k in a ensures k in b && b[k] == a[k] {
      var n :| n in want && DnsKey(n) == k;
      assert a[DnsKey(n)] == want[n] == b[DnsKey(n)];
    }
    forall k | k in b ensures k in a {
      var n :| n in want && DnsKey(n) == k;
    }
    assert a.Keys == b.Keys;
  }

  /** A Sync repeated after success plans no change, provided a written record reads back as the same. */
  lemma RepeatPlansNothing<R>(have: map<string, R>, have': map<string, R>, domain: string, want: map<string, string>,
                              retain: Option<map<string, string>>, same: (string, string, R) -> bool,
                              render: (string, string) -> R, p: SyncPlan, q: SyncPlan)
    requires IsPlan(p, have, domain, want, retain, same) && CarriedOut(have', have, p, DnsKey(domain), render)
    requires forall n :: n in want ==> same(DnsKey(n), want[n], render(DnsKey(n), want[n]))
    requires IsPlan(q, have', domain, want, retain, same)
    ensures q.entries == [] && !q.writeRoot && q.stale == []
  {
    var root := DnsKey(domain);
    NormalIsUnique(p.wanted, q.wanted, want);
    forall n | n in p.wanted ensures UpToDate(have', n, p.wanted[n], same) {
      var raw :| raw in want && DnsKey(raw) == n;
      assert p.wanted[DnsKey(raw)] == want[raw];
      if !(n in p.entries || (p.writeRoot && n == root)) {
        assert UpToDate(have, n, p.wanted[n], same);
        assert n !in p.stale;
      }
    }
    EmptyOrMember(q.entries);
    assert forall n :: n in q.stale ==> n !in p.wanted && n in have';
    EmptyOrMember(q.stale);
  }

  // ----- how Route53 stores a record -----

  datatype RecordSet = RecordSet(values: seq<string>, ttl: nat)

  function Join(values: seq<string>): string {
    if values == [] then "" else values[0] + Join(values[1..])
  }

  predicate Route53Unchanged(content: string, current: RecordSet, ttl: nat) {
    Txt.Normal(Join(current.values)) == content && current.ttl == ttl
  }

  /** A record written to Route53 is recognized as unchanged exactly when its content is printable. */
  lemma Route53ReadsBack(content: string, ttl: nat)
    requires Txt.Ascii(content)
    ensures Route53Unchanged(content, RecordSet([Txt.Split(content)], ttl), ttl) <==> Txt.Printable(content)
  {
    var v := [Txt.Split(content)];
    assert v[1..] == [] && Join(v) == v[0];
    Txt.NormalInvertsSplit(content);
  }
}
