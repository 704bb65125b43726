/** What the struct case promises about the object it builds: one property
    per Go name, no property for an ignored or hidden field, every required
    name a property, oneof alternatives of one required property each, the
    dependent-required check, and the additionalProperties default. */
module StructFacts {
  import opened Types
  import opened Schemas
  import opened GoStrings
  import opened Tags
  import opened Fields
  import opened Dependents
  import opened Structs

  /** A plan is the field-by-field actions; a failed plan fails with the
      panic of its first malformed field. */
  lemma PlanActions(fields: seq<FieldInfo>, n: nat)
    requires n <= |fields|
    ensures Plan(fields, n).Ok? ==> forall i :: 0 <= i < n ==> ActionOf(fields, i) == Ok(Plan(fields, n).value[i])
    ensures Plan(fields, n).Ok? <==> forall i :: 0 <= i < n ==> ActionOf(fields, i).Ok?
    ensures Plan(fields, n).Fail? ==>
      exists i :: 0 <= i < n && ActionOf(fields, i) == Fail(Plan(fields, n).abort) && forall j :: 0 <= j < i ==> ActionOf(fields, j).Ok?
  {
    PlanSucceeds(fields, n);
    PlanFirstFailure(fields, n);
  }

  /** A plan succeeds exactly when every field's action does, and then it is
      those actions. */
  lemma {:induction false} PlanSucceeds(fields: seq<FieldInfo>, n: nat)
    requires n <= |fields|
    ensures Plan(fields, n).Ok? ==> forall i :: 0 <= i < n ==> ActionOf(fields, i) == Ok(Plan(fields, n).value[i])
    ensures Plan(fields, n).Ok? <==> forall i :: 0 <= i < n ==> ActionOf(fields, i).Ok?
    decreases n
  {
    if n > 0 {
      PlanSucceeds(fields, n - 1);
      if Plan(fields, n - 1).Ok? && ActionOf(fields, n - 1).Ok? {
        var prev := Plan(fields, n - 1).value;
        var r := prev + [ActionOf(fields, n - 1).value];
        assert Plan(fields, n) == Ok(r);
        forall i | 0 <= i < n ensures ActionOf(fields, i) == Ok(r[i]) {
          if i < n - 1 {
            assert r[i] == prev[i];
          }
        }
      }
    }
  }

  /** A failed plan fails with the panic of its first malformed field. */
  lemma {:induction false} PlanFirstFailure(fields: seq<FieldInfo>, n: nat)
    requires n <= |fields|
    ensures Plan(fields, n).Fail? ==>
      exists i :: 0 <= i < n && ActionOf(fields, i) == Fail(Plan(fields, n).abort) && forall j :: 0 <= j < i ==> ActionOf(fields, j).Ok?
    decreases n
  {
    if n > 0 {
      match Plan(fields, n - 1)
      case Fail(e) => {
        PlanFirstFailure(fields, n - 1);
        var i :| 0 <= i < n - 1 && ActionOf(fields, i) == Fail(e) && forall j :: 0 <= j < i ==> ActionOf(fields, j).Ok?;
      }
      case Ok(prev) => {
        PlanSucceeds(fields, n - 1);
        if ActionOf(fields, n - 1).Fail? {
          assert ActionOf(fields, n - 1) == Fail(Plan(fields, n).abort);
        }
      }
    }
  }

  /** Every action that makes a property comes from an unshadowed field
      outside any oneof group whose tags document it under that name. */
  lemma {:induction false} PropertyAction(fields: seq<FieldInfo>, i: nat)
    requires i < |fields| && ActionOf(fields, i).Ok? && ActionOf(fields, i).value.Property?
    ensures !Shadowed(fields, i) && !IsOneOf(fields[i].field)
    ensures var a := ActionOf(fields, i).value;
      ParseField(fields[i].field) == Ok(Documented(a.name, a.required, a.dependents))
  {
  }

  /** The first field with a Go name wins: two fields that both become
      properties have different Go names. */
  lemma {:induction false} OnePropertyPerGoName(fields: seq<FieldInfo>, i: nat, j: nat)
    requires i < j < |fields| && Plan(fields, |fields|).Ok?
    requires Plan(fields, |fields|).value[i].Property? && Plan(fields, |fields|).value[j].Property?
    ensures fields[i].field.name != fields[j].field.name
  {
    PlanActions(fields, |fields|);
    PropertyAction(fields, i);
    PropertyAction(fields, j);
  }

  /** A later field with the Go name of an earlier field outside any oneof
      group is skipped. */
  lemma {:induction false} ShadowedSkipped(fields: seq<FieldInfo>, i: nat, j: nat)
    requires i < j < |fields| && fields[i].field.name == fields[j].field.name && !IsOneOf(fields[i].field)
    requires Plan(fields, |fields|).Ok?
    ensures Plan(fields, |fields|).value[j] == Skip
  {
    PlanActions(fields, |fields|);
    assert Shadowed(fields, j);
  }

  /** A field whose effective name is "-", or that is hidden, never becomes
      a property. */
  lemma {:induction false} IgnoredAndHiddenSkipped(fields: seq<FieldInfo>, j: nat)
    requires j < |fields| && Plan(fields, |fields|).Ok?
    requires ParseField(fields[j].field) in {Ok(Ignored), Ok(Hidden)}
    ensures !Plan(fields, |fields|).value[j].Property?
  {
    PlanActions(fields, |fields|);
  }

  /** Every key of the assembled properties is the name of a property action. */
  lemma {:induction false} PropsFromActions(c: StructCtx, actions: seq<Action>, subs: seq<seq<Option<SchemaNode>>>)
    requires |actions| == |subs| <= |c.fields|
    ensures forall k :: k in Assemble(c, actions, subs).props ==>
      exists i :: 0 <= i < |actions| && actions[i].Property? && actions[i].name == k
    decreases |actions|
  {
    if actions != [] {
      var n := |actions| - 1;
      PropsFromActions(c, actions[..n], subs[..n]);
      forall k | k in Assemble(c, actions, subs).props
        ensures exists i :: 0 <= i < |actions| && actions[i].Property? && actions[i].name == k
      {
        if k in Assemble(c, actions[..n], subs[..n]).props {
          var i :| 0 <= i < n && actions[..n][i].Property? && actions[..n][i].name == k;
          assert actions[i] == actions[..n][i];
        } else {
          assert actions[n].Property? && actions[n].name == k;
        }
      }
    }
  }

  /** Conversely, every property action whose nested request was answered
      with a schema leaves its name among the properties: a later step may
      replace the schema under a name but never drops the name. */
  lemma {:induction false} AnsweredPropsKept(c: StructCtx, actions: seq<Action>, subs: seq<seq<Option<SchemaNode>>>)
    requires |actions| == |subs| <= |c.fields|
    ensures forall i :: 0 <= i < |actions| && actions[i].Property? && subs[i] != [] && subs[i][0].Some? ==>
      actions[i].name in Assemble(c, actions, subs).props
    decreases |actions|
  {
    if actions != [] {
      var n := |actions| - 1;
      AnsweredPropsKept(c, actions[..n], subs[..n]);
      var prev := Assemble(c, actions[..n], subs[..n]);
      assert prev.props.Keys <= Assemble(c, actions, subs).props.Keys;
      forall i | 0 <= i < n && actions[i].Property? && subs[i] != [] && subs[i][0].Some?
        ensures actions[i].name in Assemble(c, actions, subs).props
      {
        assert actions[..n][i] == actions[i] && subs[..n][i] == subs[i];
      }
    }
  }

  /** The assembly keeps two invariants: every required name is a property,
      and additionalProperties is left to its default exactly when no oneof
      alternative was found. */
  lemma {:induction false} AssembleInvariant(c: StructCtx, actions: seq<Action>, subs: seq<seq<Option<SchemaNode>>>)
    requires |actions| == |subs| <= |c.fields|
    ensures forall k :: k in Assemble(c, actions, subs).required ==> k in Assemble(c, actions, subs).props
    ensures Assemble(c, actions, subs).ignoreAP <==> Assemble(c, actions, subs).oneOf != []
    decreases |actions|
  {
    if actions != [] {
      var n := |actions| - 1;
      AssembleInvariant(c, actions[..n], subs[..n]);
    }
  }

  /** Each oneof alternative is an object with a single property, which is
      also its one required name: the name of an eligible Get method with
      its first letter lower-cased, holding that method's schema. */
  lemma {:induction false} AltsShape(c: StructCtx, sub: seq<Option<SchemaNode>>)
    ensures forall a :: a in Alts(c, sub) ==>
      && a.typ == TypeObject && |a.required| == 1 && a.properties.Keys == {a.required[0]}
      && (exists k :: 0 <= k < |sub| && k < |c.methods| && Eligible(c, c.methods[k]) && sub[k].Some? &&
           a.required[0] == GetName(c.methods[k].name) && a.properties[a.required[0]] == sub[k].value)
    decreases |sub|
  {
    if sub != [] {
      var n := |sub| - 1;
      AltsShape(c, sub[..n]);
      forall a | a in Alts(c, sub)
        ensures (exists k :: 0 <= k < |sub| && k < |c.methods| && Eligible(c, c.methods[k]) && sub[k].Some? &&
                   a.required[0] == GetName(c.methods[k].name) && a.properties[a.required[0]] == sub[k].value)
      {
        if a in Alts(c, sub[..n]) {
          var k :| 0 <= k < n && k < |c.methods| && Eligible(c, c.methods[k]) && sub[..n][k].Some? &&
            a.required[0] == GetName(c.methods[k].name) && a.properties[a.required[0]] == sub[..n][k].value;
          assert sub[k] == sub[..n][k];
        } else {
          assert n < |c.methods| && Eligible(c, c.methods[n]) && sub[n].Some?;
        }
      }
    }
  }

  /** Closing the object: it comes out only when every dependent is a
      property, and then carries exactly the accumulated properties,
      required names, dependents and alternatives; otherwise the panic lists
      exactly the missing (field, dependent) pairs, grouped by field in
      sorted order. */
  lemma {:induction false} CloseDependents(c: StructCtx, acc: Acc)
    ensures Close(c, acc).Ok? ==> forall k, d :: k in acc.depMap && d in acc.depMap[k] ==> d in acc.props
    ensures Close(c, acc).Ok? ==>
      var n := Close(c, acc).value;
      && n.typ == TypeObject && n.properties == acc.props && n.required == acc.required
      && n.dependentRequired == acc.depMap && n.oneOf == acc.oneOf
    ensures (exists k, d :: k in acc.depMap && d in acc.depMap[k] && d !in acc.props) <==>
      Close(c, acc).Fail? && Close(c, acc).abort.MissingDependents?
    ensures Close(c, acc).Fail? && Close(c, acc).abort.MissingDependents? ==>
      var errs := Close(c, acc).abort.missing;
      && GroupedByField(errs)
      && forall e :: e in errs <==> e.field in acc.depMap && e.dependent in acc.depMap[e.field] && e.dependent !in acc.props
  {
    var keys := SortedElems(acc.depMap.Keys);
    SortedElemsMembers(acc.depMap.Keys);
    NoneMissing(acc.depMap, acc.props.Keys, keys);
    MissingAlongOrdered(acc.depMap, acc.props.Keys, keys);
  }

  /** The additionalProperties default: left unset, with the object not
      nullable, when some oneof alternative exists; otherwise read off the
      blank `_` field, and with no such field additional properties are
      refused and the object is not nullable. */
  lemma {:induction false} CloseDefaults(c: StructCtx, acc: Acc)
    ensures Close(c, acc).Ok? && acc.ignoreAP ==>
      Close(c, acc).value.additionalProperties == APUnset && !Close(c, acc).value.nullable
    ensures Close(c, acc).Ok? && !acc.ignoreAP ==>
      && StructDefaults(c.u, c.st).Ok?
      && Close(c, acc).value.additionalProperties == APBool(StructDefaults(c.u, c.st).value.0)
      && (Close(c, acc).value.nullable <==> StructDefaults(c.u, c.st).value.1 == Some(true))
    ensures Close(c, acc).Fail? && !Close(c, acc).abort.MissingDependents? ==>
      !acc.ignoreAP && StructDefaults(c.u, c.st) == Fail(Close(c, acc).abort)
  {
  }

  /** The blank `_` field's defaults: additional properties are allowed
      only when its tag says "true", and without such a field they are
      refused and nullability is left alone. */
  lemma {:induction false} BlankFieldDefaults(u: Universe, st: TypeId)
    requires st in u.types
    ensures StructDefaults(u, st).Ok? ==>
      (StructDefaults(u, st).value.0 <==>
        exists f :: FirstNamed(u.types[st].fields, "_") == Some(f) && TagGet(f.tag, "additionalProperties") == "true")
    ensures (forall i :: 0 <= i < |u.types[st].fields| ==> u.types[st].fields[i].name != "_") ==>
      StructDefaults(u, st) == Ok((false, None))
  {
  }

  /** The object of a struct that derives without panicking: every required
      name is a property; every property is named by the tags of a field
      that is neither shadowed nor a oneof group (so never "-" and never
      hidden); every field whose property request was answered with a
      schema has its name among the properties; every dependent names a
      property; and additionalProperties is left unset exactly when there are
      oneof alternatives. */
  lemma {:induction false} StructObject(c: StructCtx, subs: seq<seq<Option<SchemaNode>>>)
    requires |subs| == |c.fields|
    ensures StructOutcome(c, subs).Ok? ==>
      var n := StructOutcome(c, subs).value;
      && n.typ == TypeObject
      && (forall k :: k in n.required ==> k in n.properties)
      && (forall k, d :: k in n.dependentRequired && d in n.dependentRequired[k] ==> d in n.properties)
      && (n.additionalProperties == APUnset <==> n.oneOf != [])
      && (forall k :: k in n.properties ==>
           (exists i :: 0 <= i < |c.fields| && !Shadowed(c.fields, i) && !IsOneOf(c.fields[i].field) &&
              ParseField(c.fields[i].field).Ok? && ParseField(c.fields[i].field).value.Documented? &&
              ParseField(c.fields[i].field).value.name == k))
      && forall i :: 0 <= i < |c.fields| && ActionOf(c.fields, i).Ok? && ActionOf(c.fields, i).value.Property? &&
                     subs[i] != [] && subs[i][0].Some? ==>
           ActionOf(c.fields, i).value.name in n.properties
  {
    if StructOutcome(c, subs).Ok? {
      var actions := Plan(c.fields, |c.fields|).value;
      var acc := Assemble(c, actions, subs);
      var n := StructOutcome(c, subs).value;
      assert Close(c, acc) == Ok(n);
      PlanActions(c.fields, |c.fields|);
      AssembleInvariant(c, actions, subs);
      PropsFromActions(c, actions, subs);
      AnsweredPropsKept(c, actions, subs);
      CloseDependents(c, acc);
      CloseDefaults(c, acc);
      forall k | k in n.properties
        ensures (exists i :: 0 <= i < |c.fields| && !Shadowed(c.fields, i) && !IsOneOf(c.fields[i].field) &&
                   ParseField(c.fields[i].field).Ok? && ParseField(c.fields[i].field).value.Documented? &&
                   ParseField(c.fields[i].field).value.name == k)
      {
        var i :| 0 <= i < |actions| && actions[i].Property? && actions[i].name == k;
        PropertyAction(c.fields, i);
      }
    }
  }
}
