/** The struct case of schemaFromType as a pure specification. The walk over
    the fields splits into a plan, fixed by the fields and their tags alone
    (which fields are shadowed, which are oneof groups, which become
    properties and which panic), and an assembly that folds into the plan the
    schemas the registry answered for the nested requests. Closing the
    assembly runs the dependent-required check and sets the
    additionalProperties default. */
module Structs {
  import opened Types
  import opened Schemas
  import opened GoStrings
  import opened Tags
  import opened Fields
  import opened Dependents

  /** What the struct case works on: the type table, the struct itself
      (pointers removed), the method set of the type as it was handed to
      schemaFromType, and the struct's fields as getFields lists them. */
  datatype StructCtx = StructCtx(u: Universe, st: TypeId, methods: seq<Method>, fields: seq<FieldInfo>)

  /** The kind of a type of the table. */
  function KindOf(u: Universe, t: TypeId): Kind {
    if t in u.types then u.types[t].kind else Invalid
  }

  /** A field standing for a protobuf oneof group. */
  predicate IsOneOf(f: Field) {
    TagGet(f.tag, "protobuf_oneof") != ""
  }

  /** An earlier field with the same Go name already took the name; oneof
      fields never take a name. */
  predicate Shadowed(fields: seq<FieldInfo>, i: nat)
    requires i < |fields|
  {
    exists j :: 0 <= j < i && fields[j].field.name == fields[i].field.name && !IsOneOf(fields[j].field)
  }

  /** The Go names taken by the first `i` fields. */
  ghost function NamesBefore(fields: seq<FieldInfo>, i: nat): set<string>
    requires i <= |fields|
  {
    set j | 0 <= j < i && !IsOneOf(fields[j].field) :: fields[j].field.name
  }

  /** What the walk does with one field. */
  datatype Action =
    | Skip
    | Alternatives
    | Property(name: string, required: bool, dependents: Option<seq<string>>)

  /** The action for field `i`: shadowed fields are skipped, oneof fields
      turn into alternatives, and every other field is read through its tags. */
  function ActionOf(fields: seq<FieldInfo>, i: nat): Result<Action>
    requires i < |fields|
  {
    var f := fields[i].field;
    if Shadowed(fields, i) then Ok(Skip)
    else if IsOneOf(f) then Ok(Alternatives)
    else
      match ParseField(f)
      case Fail(e) => Fail(e)
      case Ok(meta) => Ok(if meta.Documented? then Property(meta.name, meta.required, meta.dependents) else Skip)
  }

  /** A field's tags panic only as boolTag or the protobuf name expression
      does. */
  lemma TagPanics(fields: seq<FieldInfo>, i: nat)
    requires i < |fields|
    ensures ActionOf(fields, i).Fail? ==>
      ActionOf(fields, i).abort.InvalidBoolTag? || ActionOf(fields, i).abort.ProtobufNameNoMatch?
  {
  }

  /** The actions for the first `n` fields, or the panic of the first field
      whose tags are malformed. */
  function Plan(fields: seq<FieldInfo>, n: nat): (r: Result<seq<Action>>)
    requires n <= |fields|
    ensures r.Ok? ==> |r.value| == n
  {
    if n == 0 then Ok([])
    else
      match Plan(fields, n - 1)
      case Fail(e) => Fail(e)
      case Ok(prev) =>
        match ActionOf(fields, n - 1)
        case Fail(e) => Fail(e)
        case Ok(a) => Ok(prev + [a])
  }

  /** The accumulators of the field loop, besides the set of taken names. */
  datatype Acc = Acc(
    props: map<string, SchemaNode>,
    required: seq<string>,
    depMap: map<string, seq<string>>,
    oneOf: seq<SchemaNode>,
    ignoreAP: bool)

  const START: Acc := Acc(map[], [], map[], [], false)

  /** A method that yields a oneof alternative: exactly one result, a "Get"
      prefix, and not the getter of one of the struct's own fields. */
  predicate Eligible(c: StructCtx, m: Method) {
    && m.numOut == 1
    && HasPrefix(m.name, "Get")
    && !(exists j :: 0 <= j < |c.fields| && m.name == "Get" + c.fields[j].field.name)
  }

  /** One oneof alternative: an object with the single required property `name`. */
  function Alternative(name: string, fs: SchemaNode): SchemaNode {
    EMPTY.(typ := TypeObject, properties := map[name := fs], required := [name])
  }

  /** The alternatives of one oneof field, given what the registry answered
      for each of the first |sub| methods (skipped methods have no answer, and
      a nil answer yields no alternative). */
  function Alts(c: StructCtx, sub: seq<Option<SchemaNode>>): seq<SchemaNode>
  {
    if sub == [] then []
    else
      var k := |sub| - 1;
      Alts(c, sub[..k]) +
        if k < |c.methods| && Eligible(c, c.methods[k]) && sub[k].Some?
        then [Alternative(GetName(c.methods[k].name), sub[k].value)]
        else []
  }

  /** The hint the walk passes with the request for field `i`'s type. */
  function FieldHint(c: StructCtx, i: nat): string
    requires c.st in c.u.types && i < |c.fields|
  {
    c.u.types[c.st].name + c.fields[i].field.name + "Struct"
  }

  /** The hint the walk passes with the request for the result type of the
      `k`-th method of a oneof group. */
  function AltHint(c: StructCtx, k: nat): string
    requires c.st in c.u.types && k < |c.methods| && c.methods[k].out0 in c.u.types
  {
    c.u.types[c.st].name + c.u.types[c.methods[k].out0].name + "Struct"
  }

  /** A property's schema as the struct stores it: an int64 field with a
      protobuf tag is a string in protojson, and a pointer field that is
      omitted when empty is never sent as null unless tagged nullable. */
  function Adjust(u: Universe, f: Field, fs: SchemaNode): SchemaNode {
    var typed := if TagGet(f.tag, "protobuf") != "" && KindOf(u, f.typ) == Int64 then fs.(typ := TypeString) else fs;
    if KindOf(u, f.typ) == Pointer && Contains(TagGet(f.tag, "json"), "omitempty") && TagGet(f.tag, "nullable") != "true"
    then typed.(nullable := false)
    else typed
  }

  /** One step of the field loop for field `i`, with the registry's answers
      `sub` for it. */
  function Apply(c: StructCtx, acc: Acc, i: nat, a: Action, sub: seq<Option<SchemaNode>>): Acc
    requires i < |c.fields|
  {
    match a
    case Skip => acc
    case Alternatives =>
      var alts := Alts(c, sub);
      acc.(oneOf := acc.oneOf + alts, ignoreAP := acc.ignoreAP || alts != [])
    case Property(name, req, deps) =>
      var withDeps := if deps.Some? then acc.(depMap := acc.depMap[name := deps.value]) else acc;
      if sub == [] || sub[0].None? then withDeps
      else
        withDeps.(
          props := withDeps.props[name := Adjust(c.u, c.fields[i].field, sub[0].value)],
          required := if req then withDeps.required + [name] else withDeps.required)
  }

  /** The accumulators after the steps `actions` with the answers `subs`. */
  function Assemble(c: StructCtx, actions: seq<Action>, subs: seq<seq<Option<SchemaNode>>>): Acc
    requires |actions| == |subs| <= |c.fields|
  {
    if actions == [] then START
    else
      var k := |actions| - 1;
      Apply(c, Assemble(c, actions[..k], subs[..k]), k, actions[k], subs[k])
  }

  /** reflect's FieldByName on the struct's own fields: the first one so named. */
  function FirstNamed(fs: seq<Field>, name: string): (r: Option<Field>)
    ensures r.Some? ==> r.value in fs && r.value.name == name
    ensures r.None? ==> forall i :: 0 <= i < |fs| ==> fs[i].name != name
  {
    if fs == [] then None
    else if fs[0].name == name then Some(fs[0])
    else FirstNamed(fs[1..], name)
  }

  /** The defaults the blank `_` field sets: whether additional properties
      are allowed (not unless its tag says so) and, when tagged, whether the
      struct is nullable. */
  function StructDefaults(u: Universe, st: TypeId): Result<(bool, Option<bool>)> {
    var fs := if st in u.types then u.types[st].fields else [];
    match FirstNamed(fs, "_")
    case None => Ok((false, None))
    case Some(f) =>
      match LookupBoolTag(f, "additionalProperties")
      case Fail(e) => Fail(e)
      case Ok(ap) =>
        match LookupBoolTag(f, "nullable")
        case Fail(e) => Fail(e)
        case Ok(nullable) => Ok((ap == Some(true), nullable))
  }

  /** The struct's node once the field loop is over. */
  function ObjectNode(acc: Acc, nullable: bool, ap: AdditionalProperties): SchemaNode {
    EMPTY.(
      typ := TypeObject,
      nullable := nullable,
      properties := acc.props,
      required := acc.required,
      additionalProperties := ap,
      dependentRequired := acc.depMap,
      oneOf := acc.oneOf)
  }

  /** After the loop: the dependent-required check over the keys in sorted
      order, then, unless some oneof alternative exists, the
      additionalProperties default. */
  ghost function Close(c: StructCtx, acc: Acc): Result<SchemaNode> {
    var keys := SortedElems(acc.depMap.Keys);
    SortedElemsMembers(acc.depMap.Keys);
    var errs := MissingAlong(acc.depMap, acc.props.Keys, keys);
    if errs != [] then Fail(MissingDependents(errs))
    else if acc.ignoreAP then Ok(ObjectNode(acc, false, APUnset))
    else
      match StructDefaults(c.u, c.st)
      case Fail(e) => Fail(e)
      case Ok(d) => Ok(ObjectNode(acc, d.1 == Some(true), APBool(d.0)))
  }

  /** What the field loop does with field `i`, decided as the walk decides
      it: a name already taken skips the field, a oneof tag makes it a group
      of alternatives, and otherwise its tags say whether and how it is
      documented. */
  method FieldAction(fields: seq<FieldInfo>, i: nat, fieldSet: set<string>) returns (res: Result<Action>)
    requires i < |fields| && fieldSet == NamesBefore(fields, i)
    ensures res == ActionOf(fields, i)
  {
    NamesStep(fields, i);
    var f := fields[i].field;
    if f.name in fieldSet {
      // Declared again further out: the outer declaration wins.
      return Ok(Skip);
    }
    if TagGet(f.tag, "protobuf_oneof") != "" {
      return Ok(Alternatives);
    }
    var meta := ParseField(f);
    if meta.Fail? {
      return Fail(meta.abort);
    }
    if !meta.value.Documented? {
      return Ok(Skip);
    }
    return Ok(Property(meta.value.name, meta.value.required, meta.value.dependents));
  }

  /** The end of the struct case: panic on missing dependents, then, unless
      some oneof alternative exists, read the defaults off the blank `_` field. */
  method CloseObject(c: StructCtx, acc: Acc) returns (res: Result<SchemaNode>)
    ensures res == Close(c, acc)
  {
    var keys := SortedKeys(acc.depMap);
    SortedElemsMembers(acc.depMap.Keys);
    var errs := CheckDependents(acc.depMap, acc.props.Keys, keys);
    if errs != [] {
      return Fail(MissingDependents(errs));
    }
    var nullable := false;
    var additionalProperties := APUnset;
    if !acc.ignoreAP {
      var allowed := false;
      var fs := if c.st in c.u.types then c.u.types[c.st].fields else [];
      var blank := FirstNamed(fs, "_");
      if blank.Some? {
        if "additionalProperties" in blank.value.tag {
          var b := BoolTag(blank.value, "additionalProperties");
          if b.Fail? {
            return Fail(b.abort);
          }
          allowed := b.value;
        }
        if "nullable" in blank.value.tag {
          var b := BoolTag(blank.value, "nullable");
          if b.Fail? {
            return Fail(b.abort);
          }
          nullable := b.value;
        }
      }
      additionalProperties := APBool(allowed);
    }
    res := Ok(ObjectNode(acc, nullable, additionalProperties));
  }

  /** Closing panics only on missing dependents or a malformed tag on the
      blank `_` field. */
  lemma CloseFails(c: StructCtx, acc: Acc)
    ensures Close(c, acc).Fail? ==>
      Close(c, acc).abort.MissingDependents? || StructDefaults(c.u, c.st) == Fail(Close(c, acc).abort)
    ensures Close(c, acc).Fail? ==> Close(c, acc).abort.MissingDependents? || Close(c, acc).abort.InvalidBoolTag?
  {
  }

  /** The struct case, given the registry's answers for every field. */
  ghost function StructOutcome(c: StructCtx, subs: seq<seq<Option<SchemaNode>>>): Result<SchemaNode>
    requires |subs| == |c.fields|
  {
    match Walked(c, subs)
    case Fail(e) => Fail(e)
    case Ok(acc) => Close(c, acc)
  }

  /** The accumulators once every field is walked, or the panic of the first
      field whose tags are malformed. */
  ghost function Walked(c: StructCtx, subs: seq<seq<Option<SchemaNode>>>): Result<Acc>
    requires |subs| == |c.fields|
  {
    match Plan(c.fields, |c.fields|)
    case Fail(e) => Fail(e)
    case Ok(actions) => Ok(Assemble(c, actions, subs))
  }

  lemma SortedElemsMembers(s: set<string>)
    ensures forall k :: k in SortedElems(s) <==> k in s
  {
    var r := SortedElems(s);
    forall k ensures k in r <==> k in s {
      assert k in r <==> k in multiset(r);
    }
  }

  // ---- Step lemmas the field loop uses ----

  /** Planning one more field. */
  lemma PlanStep(fields: seq<FieldInfo>, i: nat, prev: seq<Action>)
    requires i < |fields| && Plan(fields, i) == Ok(prev)
    ensures ActionOf(fields, i).Fail? ==> Plan(fields, i + 1) == Fail(ActionOf(fields, i).abort)
    ensures ActionOf(fields, i).Ok? ==> Plan(fields, i + 1) == Ok(prev + [ActionOf(fields, i).value])
  {
  }

  /** A malformed field ends the plan, whatever follows it. */
  lemma {:induction false} PlanSticks(fields: seq<FieldInfo>, i: nat, n: nat)
    requires i <= n <= |fields| && Plan(fields, i).Fail?
    ensures Plan(fields, n) == Plan(fields, i)
    decreases n
  {
    if n > i {
      PlanSticks(fields, i, n - 1);
    }
  }

  /** The taken names grow by the field's own name unless it is a oneof field;
      a field's name is taken exactly when the field is shadowed. */
  lemma NamesStep(fields: seq<FieldInfo>, i: nat)
    requires i < |fields|
    ensures fields[i].field.name in NamesBefore(fields, i) <==> Shadowed(fields, i)
    ensures NamesBefore(fields, i + 1) ==
      NamesBefore(fields, i) + (if IsOneOf(fields[i].field) then {} else {fields[i].field.name})
  {
    var f := fields[i].field;
    if f.name in NamesBefore(fields, i) {
      var j :| 0 <= j < i && !IsOneOf(fields[j].field) && fields[j].field.name == f.name;
      assert Shadowed(fields, i);
    }
  }

  /** Assembling one more step. */
  lemma AssembleStep(c: StructCtx, actions: seq<Action>, subs: seq<seq<Option<SchemaNode>>>, a: Action, sub: seq<Option<SchemaNode>>)
    requires |actions| == |subs| < |c.fields|
    ensures Assemble(c, actions + [a], subs + [sub]) == Apply(c, Assemble(c, actions, subs), |actions|, a, sub)
  {
    assert (actions + [a])[..|actions|] == actions;
    assert (subs + [sub])[..|subs|] == subs;
  }

  /** A property step with the registry's one answer `x`. */
  lemma ApplyProperty(c: StructCtx, acc: Acc, i: nat, name: string, req: bool, deps: Option<seq<string>>, x: Option<SchemaNode>)
    requires i < |c.fields|
    ensures var w := if deps.Some? then acc.(depMap := acc.depMap[name := deps.value]) else acc;
      Apply(c, acc, i, Property(name, req, deps), [x]) ==
        if x.None? then w
        else w.(props := w.props[name := Adjust(c.u, c.fields[i].field, x.value)],
                required := if req then w.required + [name] else w.required)
  {
  }

  /** One more method answered in a oneof group. */
  lemma AltsStep(c: StructCtx, sub: seq<Option<SchemaNode>>, x: Option<SchemaNode>)
    ensures Alts(c, sub + [x]) == Alts(c, sub) +
      if |sub| < |c.methods| && Eligible(c, c.methods[|sub|]) && x.Some?
      then [Alternative(GetName(c.methods[|sub|].name), x.value)]
      else []
  {
    assert (sub + [x])[..|sub|] == sub;
  }
}
