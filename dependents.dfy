/** The check that every field named by a `dependentRequired` tag is a
    property of the struct: the offending pairs are listed field by field, the
    fields in sorted order and each field's dependents in tag order. */
module Dependents {
  import opened Schemas
  import opened GoStrings

  /** The dependents of `field`, in order, that are not among `props`. */
  function MissingOf(field: string, deps: seq<string>, props: set<string>): (r: seq<MissingDependent>)
    ensures forall e :: e in r ==> e.field == field && e.dependent in deps && e.dependent !in props
    ensures forall d :: d in deps && d !in props ==> MissingDependent(d, field) in r
  {
    if deps == [] then []
    else
      var d := deps[|deps| - 1];
      MissingOf(field, deps[..|deps| - 1], props) + (if d in props then [] else [MissingDependent(d, field)])
  }

  /** The missing dependents of the fields `keys`, in the order of `keys`. */
  function MissingAlong(depMap: map<string, seq<string>>, props: set<string>, keys: seq<string>): (r: seq<MissingDependent>)
    requires forall k :: k in keys ==> k in depMap
    ensures forall e :: e in r ==> e.field in keys && e.dependent in depMap[e.field] && e.dependent !in props
    ensures forall k, d :: k in keys && d in depMap[k] && d !in props ==> MissingDependent(d, k) in r
  {
    if keys == [] then []
    else
      var k := keys[|keys| - 1];
      MissingAlong(depMap, props, keys[..|keys| - 1]) + MissingOf(k, depMap[k], props)
  }

  /** The check passes exactly when every dependent is a property. */
  lemma NoneMissing(depMap: map<string, seq<string>>, props: set<string>, keys: seq<string>)
    requires forall k :: k in keys ==> k in depMap
    ensures MissingAlong(depMap, props, keys) == [] <==>
      forall k, d :: k in keys && d in depMap[k] ==> d in props
  {
    var r := MissingAlong(depMap, props, keys);
    if r != [] {
      assert r[0] in r;
    }
  }

  /** The fields of an error list never go down. */
  predicate GroupedByField(r: seq<MissingDependent>) {
    forall i, j :: 0 <= i < j < |r| ==> LessEq(r[i].field, r[j].field)
  }

  /** With sorted keys, the errors come grouped by field in sorted order. */
  lemma {:induction false} MissingAlongOrdered(depMap: map<string, seq<string>>, props: set<string>, keys: seq<string>)
    requires forall k :: k in keys ==> k in depMap
    requires Sorted(keys)
    ensures GroupedByField(MissingAlong(depMap, props, keys))
    decreases |keys|
  {
    if keys != [] {
      var n := |keys| - 1;
      var front := MissingAlong(depMap, props, keys[..n]);
      MissingAlongOrdered(depMap, props, keys[..n]);
      forall e | e in front ensures LessEq(e.field, keys[n]) {
        var p :| 0 <= p < n && keys[p] == e.field;
      }
      GroupedAppend(front, MissingOf(keys[n], depMap[keys[n]], props), keys[n]);
    }
  }

  /** Errors for fields up to `k`, followed by errors for `k` itself. */
  lemma GroupedAppend(front: seq<MissingDependent>, last: seq<MissingDependent>, k: string)
    requires GroupedByField(front)
    requires forall e :: e in front ==> LessEq(e.field, k)
    requires forall e :: e in last ==> e.field == k
    ensures GroupedByField(front + last)
  {
    var r := front + last;
    LessEqTotal(k, k);
    forall i, j | 0 <= i < j < |r| ensures LessEq(r[i].field, r[j].field) {
      if j < |front| {
        assert r[i] == front[i] && r[j] == front[j];
      } else if i < |front| {
        assert r[i] in front && r[j] == last[j - |front|];
      } else {
        assert r[i] == last[i - |front|] && r[j] == last[j - |front|];
      }
    }
  }

  /** The keys of a map, collected in whatever order the map hands them out
      and then sorted: the outcome is the one ascending order of the keys,
      whatever the collection order was. */
  method SortedKeys(m: map<string, seq<string>>) returns (keys: seq<string>)
    ensures Sorted(keys) && multiset(keys) == multiset(m.Keys)
    ensures keys == SortedElems(m.Keys)
  {
    var collected: seq<string> := [];
    var rest := m.Keys;
    while rest != {}
      invariant rest <= m.Keys
      invariant multiset(collected) + multiset(rest) == multiset(m.Keys)
      decreases |rest|
    {
      var k :| k in rest;
      collected := collected + [k];
      rest := rest - {k};
    }
    keys := SortStrings(collected);
    SortedUnique(keys, SortedElems(m.Keys));
  }

  /** The loops over the sorted keys and each key's dependents. */
  method CheckDependents(depMap: map<string, seq<string>>, props: set<string>, keys: seq<string>) returns (errs: seq<MissingDependent>)
    requires forall k :: k in keys ==> k in depMap
    ensures errs == MissingAlong(depMap, props, keys)
  {
    errs := [];
    for i := 0 to |keys|
      invariant errs == MissingAlong(depMap, props, keys[..i])
    {
      var field := keys[i];
      var dependents := depMap[field];
      assert keys[..i + 1][..i] == keys[..i];
      ghost var before := errs;
      for j := 0 to |dependents|
        invariant errs == before + MissingOf(field, dependents[..j], props)
      {
        assert dependents[..j + 1][..j] == dependents[..j];
        if dependents[j] in props {
          continue;
        }
        errs := errs + [MissingDependent(dependents[j], field)];
      }
      assert dependents[..|dependents|] == dependents;
    }
    assert keys[..|keys|] == keys;
  }
}
