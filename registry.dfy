/** The registry of named schemas and the walker that derives a schema from a
    type. The two call each other: the registry asks the walker for the
    schema of a type it has not named yet, and the walker asks the registry
    for the schemas of element, value, field and oneof types. A named struct
    is registered with an empty placeholder before it is walked, so a nested
    request for the same struct ends in a `$ref` instead of walking it again.

    The Go goroutine stack becomes the `depth` argument: each request to the
    registry that has to walk a type or follow an alias costs one level, and
    running out of levels (`StackExhausted`) stands for the stack overflow
    the Go code hits on a cycle of aliases or of unnamed types; it also
    comes when the levels given are merely too few for the type. */
module HumaProto {
  import opened Types
  import opened Schemas
  import opened GoStrings
  import opened Tags
  import opened Fields
  import opened Kinds
  import opened Dependents
  import opened Structs
  import opened RegistryState

  /** protoJSONHumaRegistry. */
  class Registry {
    const prefix: string
    const namer: (TypeId, string) -> string
    /** The program's types and the user types' interface methods; Go finds
        both through reflection. */
    const universe: Universe
    const hooks: Hooks

    var schemas: map<string, Option<SchemaNode>>
    var types: map<string, TypeId>
    var seen: set<TypeId>
    var aliases: map<TypeId, TypeId>

    /** The three maps a request may change. */
    ghost function State(): Snapshot
      reads this
    {
      Snapshot(schemas, types, seen)
    }

    ghost predicate Valid()
      reads this
    {
      Consistent(universe, State(), aliases)
    }

    /** The parts a request reads but never changes. */
    ghost function Context(): Env
      reads `aliases
    {
      Env(universe, hooks, prefix, namer, aliases)
    }

    /** NewRegistry. The type table and the interface methods of user types
        are given here, as reflection would find them. */
    constructor (prefix: string, namer: (TypeId, string) -> string, universe: Universe, hooks: Hooks)
      requires WF(universe)
      ensures Valid()
      ensures this.prefix == prefix && this.namer == namer && this.universe == universe && this.hooks == hooks
      ensures schemas == map[] && types == map[] && seen == {} && aliases == map[]
    {
      this.prefix := prefix;
      this.namer := namer;
      this.universe := universe;
      this.hooks := hooks;
      schemas := map[];
      types := map[];
      seen := {};
      aliases := map[];
    }

    /** Schema: the schema of `t`, or a ref to it when `t` is a named struct
        and refs are allowed. */
    method Schema(t: TypeId, allowRef: bool, hint: string, depth: nat) returns (res: Result<Option<SchemaNode>>)
      requires Valid() && t in universe.types
      modifies `schemas, `types, `seen
      ensures Valid() && Extended(old(State()), State())
      ensures res.Fail? ==> DuplicateHeld(State(), res.abort)
      ensures Resolve(universe, aliases, t, depth).None? ==> res == Fail(StackExhausted) && State() == old(State())
      ensures Resolve(universe, aliases, t, depth).Some? ==>
        Answer(Context(), Resolve(universe, aliases, t, depth).value.0,
          Resolve(universe, aliases, t, depth).value.1, allowRef, hint, old(State()), State(), res)
      decreases depth, 4
    {
      var st := Deref(universe, t);
      if st in aliases {
        res := SchemaAliased(t, allowRef, hint, depth);
        return;
      }
      res := SchemaUnaliased(t, allowRef, hint, depth);
    }

    /** Schema for a type with an alias: one level is spent, and the alias
        is asked for in its place. */
    method SchemaAliased(t: TypeId, allowRef: bool, hint: string, depth: nat) returns (res: Result<Option<SchemaNode>>)
      requires Valid() && t in universe.types && Strip(universe, t) in aliases
      modifies `schemas, `types, `seen
      ensures Valid() && Extended(old(State()), State())
      ensures res.Fail? ==> DuplicateHeld(State(), res.abort)
      ensures Resolve(universe, aliases, t, depth).None? ==> res == Fail(StackExhausted) && State() == old(State())
      ensures Resolve(universe, aliases, t, depth).Some? ==>
        Answer(Context(), Resolve(universe, aliases, t, depth).value.0,
          Resolve(universe, aliases, t, depth).value.1, allowRef, hint, old(State()), State(), res)
      decreases depth, 3
    {
      var st := Deref(universe, t);
      ResolveAlias(t, depth);
      if depth == 0 {
        res := Fail(StackExhausted);
      } else {
        res := Schema(aliases[st], allowRef, hint, depth - 1);
      }
    }

    /** Schema once no alias applies: decide whether the type gets a name,
        then answer through the name or derive the schema afresh. */
    method SchemaUnaliased(t: TypeId, allowRef: bool, hint: string, depth: nat) returns (res: Result<Option<SchemaNode>>)
      requires Valid() && t in universe.types && Strip(universe, t) !in aliases
      modifies `schemas, `types, `seen
      ensures Valid() && Extended(old(State()), State())
      ensures res.Fail? ==> DuplicateHeld(State(), res.abort)
      ensures Resolve(universe, aliases, t, depth) == Some((t, depth))
      ensures Answer(Context(), t, depth, allowRef, hint, old(State()), State(), res)
      decreases depth, 3
    {
      var origType := t;
      var st := Deref(universe, t);
      // A pointer to an array or slice decays to the sequence itself.
      if universe.types[st].kind == Array || universe.types[st].kind == Slice {
        origType := st;
      }

      var getsRef := universe.types[st].kind == Struct;
      if universe.types[st].wellKnown == TimeTime {
        getsRef := false;
      }
      if universe.types[st].schemaProvider {
        getsRef := false;
      }
      if universe.types[st].textUnmarshaler {
        getsRef := false;
      }

      StripDecayed(universe, t);
      var name := namer(origType, hint);
      if getsRef {
        res := NamedSchema(st, origType, name, allowRef, depth);
      } else {
        res := UnnamedSchema(st, origType, depth);
      }
      AnswerHere(t, depth, allowRef, hint, old(State()), State(), res);
    }

    /** A type without an alias is answered by the named or the unnamed case. */
    lemma AnswerHere(t: TypeId, depth: nat, allowRef: bool, hint: string, before: Snapshot, after: Snapshot, res: Result<Option<SchemaNode>>)
      requires Valid() && t in universe.types && Strip(universe, t) !in aliases
      requires RefEligible(universe, Strip(universe, t)) ==>
        AnswerNamed(Context(), namer(Decayed(universe, t), hint), Strip(universe, t), Decayed(universe, t), depth, allowRef, before, after, res)
      requires !RefEligible(universe, Strip(universe, t)) ==>
        AnswerUnnamed(Context(), Decayed(universe, t), depth, before, after, res)
      ensures Resolve(universe, aliases, t, depth) == Some((t, depth))
      ensures Answer(Context(), t, depth, allowRef, hint, before, after, res)
    {
    }

    /** Following the alias of a type costs one level. */
    lemma ResolveAlias(t: TypeId, depth: nat)
      requires Valid() && t in universe.types && Strip(universe, t) in aliases
      ensures aliases[Strip(universe, t)] in universe.types
      ensures depth == 0 ==> Resolve(universe, aliases, t, depth).None?
      ensures depth > 0 ==> Resolve(universe, aliases, t, depth) == Resolve(universe, aliases, aliases[Strip(universe, t)], depth - 1)
    {
      assert aliases[Strip(universe, t)] in aliases.Values;
    }

    /** Schema for a named struct `st` (derived from `orig`) under `name`:
        the cached answer when the name is taken, registration and a walk
        otherwise. */
    method NamedSchema(st: TypeId, orig: TypeId, name: string, allowRef: bool, depth: nat) returns (res: Result<Option<SchemaNode>>)
      requires Valid() && st in universe.types && orig in universe.types
      requires RefEligible(universe, st) && Strip(universe, orig) == st
      modifies `schemas, `types, `seen
      ensures Valid() && Extended(old(State()), State())
      ensures res.Fail? ==> DuplicateHeld(State(), res.abort)
      ensures AnswerNamed(Context(), name, st, orig, depth, allowRef, old(State()), State(), res)
      decreases depth, 2
    {
      if name in schemas {
        res := CachedSchema(st, name, allowRef);
      } else {
        res := RegisterAndWalk(st, orig, name, allowRef, depth);
      }
    }

    /** A name already taken: a panic if the type was never named, else a ref
        or the stored schema. */
    method CachedSchema(st: TypeId, name: string, allowRef: bool) returns (res: Result<Option<SchemaNode>>)
      requires Valid() && name in schemas
      ensures res == Cached(prefix, name, st, allowRef, State())
    {
      if st !in seen {
        return Fail(DuplicateName(name, st, types[name]));
      }
      if allowRef {
        return Ok(Some(RefTo(prefix + name)));
      }
      return Ok(schemas[name]);
    }

    /** A free name: register `st` under it with a placeholder first, so that
        the walk below finds the name for nested requests of the same type,
        then store what the walk derived. */
    method RegisterAndWalk(st: TypeId, orig: TypeId, name: string, allowRef: bool, depth: nat) returns (res: Result<Option<SchemaNode>>)
      requires Valid() && st in universe.types && orig in universe.types
      requires RefEligible(universe, st) && name !in schemas
      modifies `schemas, `types, `seen
      ensures Valid() && Extended(old(State()), State())
      ensures res.Fail? ==> DuplicateHeld(State(), res.abort)
      ensures AnswerNamed(Context(), name, st, orig, depth, allowRef, old(State()), State(), res)
      decreases depth, 1
    {
      ghost var before := State();
      Register(name, st);
      if depth == 0 {
        res := Fail(StackExhausted);
        NamedOutOfLevels(Context(), name, st, orig, allowRef, before, State());
      } else {
        res := WalkAndRefer(st, orig, name, allowRef, depth, before);
      }
    }

    /** The walk, a level down, of a struct just registered under `name`,
        and what the request answers: a ref to the name when
        refs are allowed, else the schema the walk stored. */
    method WalkAndRefer(st: TypeId, orig: TypeId, name: string, allowRef: bool, depth: nat, ghost before: Snapshot)
      returns (res: Result<Option<SchemaNode>>)
      requires Valid() && orig in universe.types && depth > 0
      requires name in schemas && name in types && types[name] == st && st in seen
      requires Extended(before, State()) && name !in before.schemas
      modifies `schemas, `types, `seen
      ensures Valid() && Extended(before, State())
      ensures res.Fail? ==> DuplicateHeld(State(), res.abort)
      ensures AnswerNamed(Context(), name, st, orig, depth, allowRef, before, State(), res)
      decreases depth, 0
    {
      var walked := WalkRegistered(st, orig, name, depth - 1, before);
      res := if walked.Ok? && allowRef then Ok(Some(RefTo(prefix + name))) else walked;
      NamedWalk(Context(), name, st, orig, depth, allowRef, before, State(), walked, res);
    }

    /** The walk of a struct just registered under `name` (free in `before`),
        and the store of its schema under the name: the nested requests it
        makes may add names but leave this one to the struct. */
    method WalkRegistered(st: TypeId, orig: TypeId, name: string, depth: nat, ghost before: Snapshot)
      returns (res: Result<Option<SchemaNode>>)
      requires Valid() && orig in universe.types
      requires name in schemas && name in types && types[name] == st && st in seen
      requires Extended(before, State()) && name !in before.schemas
      modifies `schemas, `types, `seen
      ensures Valid() && Extended(before, State())
      ensures StoredWalk(Context(), name, st, orig, depth, State(), res)
      decreases depth, 13
    {
      ghost var registered := State();
      res := SchemaFromType(this, orig, depth);
      ExtendedKeeps(registered, State(), name, st);
      ExtendedTrans(before, registered, State());
      if res.Ok? {
        ExtendedByStore(before, State(), name, res.value);
        Store(name, res.value);
      }
    }

    /** Schema for a type that is not named: derive it afresh. */
    method UnnamedSchema(st: TypeId, orig: TypeId, depth: nat) returns (res: Result<Option<SchemaNode>>)
      requires Valid() && st in universe.types && orig in universe.types
      requires Strip(universe, orig) == st
      modifies `schemas, `types, `seen
      ensures Valid() && Extended(old(State()), State())
      ensures res.Fail? ==> DuplicateHeld(State(), res.abort)
      ensures AnswerUnnamed(Context(), orig, depth, old(State()), State(), res)
      decreases depth, 2
    {
      if depth == 0 {
        res := Fail(StackExhausted);
      } else {
        res := SchemaFromType(this, orig, depth - 1);
        UnnamedDeeper(Context(), orig, depth, old(State()), State(), res);
      }
    }

    /** Registers the struct `st` under the new name `name` with an empty
        placeholder schema. */
    method Register(name: string, st: TypeId)
      requires Valid() && st in universe.types && RefEligible(universe, st) && name !in schemas
      modifies `schemas, `types, `seen
      ensures Valid() && Extended(old(State()), State())
      ensures schemas == old(schemas)[name := Some(EMPTY)]
      ensures types == old(types)[name := st]
      ensures seen == old(seen) + {st}
    {
      ConsistentRegister(universe, State(), aliases, name, st);
      ExtendedByRegister(State(), name, st);
      schemas := schemas[name := Some(EMPTY)];
      types := types[name := st];
      seen := seen + {st};
    }

    /** Replaces the schema stored under a registered name. */
    method Store(name: string, s: Option<SchemaNode>)
      requires Valid() && name in schemas
      modifies `schemas
      ensures Valid()
      ensures schemas == old(schemas)[name := s]
    {
      schemas := schemas[name := s];
    }

    /** SchemaFromRef: the schema stored under the name after the prefix, or
        nil when the ref lacks the prefix or the name is unknown. */
    function SchemaFromRef(ref: string): (r: Option<SchemaNode>)
      reads this
      ensures !HasPrefix(ref, prefix) ==> r.None?
      ensures r.Some? ==> ref[|prefix|..] in schemas && schemas[ref[|prefix|..]] == r
    {
      if !HasPrefix(ref, prefix) then None
      else
        var name := ref[|prefix|..];
        if name in schemas then schemas[name] else None
    }

    /** TypeFromRef: the type named after the first len(prefix) bytes of the
        ref, without checking that they are the prefix; a ref with fewer
        bytes than the prefix panics. When that cut falls inside a
        character, what follows is not valid UTF-8, which no name is. */
    function TypeFromRef(ref: string): (r: Result<Option<TypeId>>)
      reads this
      ensures r.Fail? <==> ByteLen(ref) < ByteLen(prefix)
      ensures r.Fail? ==> r.abort == RefTooShort(ref)
      ensures forall i :: 0 <= i <= |ref| && ByteLen(ref[..i]) == ByteLen(prefix) ==>
        r == Ok(if ref[i..] in types then Some(types[ref[i..]]) else None)
      ensures r.Ok? && (forall i :: 0 <= i <= |ref| ==> ByteLen(ref[..i]) != ByteLen(prefix)) ==> r.value.None?
    {
      if ByteLen(ref) < ByteLen(prefix) then
        ByteLenPrefixBound(ref);
        Fail(RefTooShort(ref))
      else
        match CharOffset(ref, ByteLen(prefix))
        case None => Ok(None)
        case Some(i) =>
          CharOffsetUnique(ref, i, ByteLen(prefix));
          Ok(if ref[i..] in types then Some(types[ref[i..]]) else None)
    }

    /** Map: the named schemas. */
    function Map(): (r: map<string, Option<SchemaNode>>)
      reads this
      requires Valid()
      ensures r.Keys == types.Keys
      ensures forall n :: n in r ==> types[n] in universe.types && RefEligible(universe, types[n])
      ensures forall n :: n in r ==> r[n] == schemas[n]
    {
      schemas
    }

    /** RegisterTypeAlias: later requests for `t` are answered for `alias`. */
    method RegisterTypeAlias(t: TypeId, alias: TypeId)
      requires Valid() && t in universe.types && alias in universe.types
      modifies `aliases
      ensures Valid()
      ensures aliases == old(aliases)[t := alias]
    {
      aliases := aliases[t := alias];
    }

    /** A ref built for a name leads back to that name's schema and type. */
    lemma RefRoundTrip(name: string)
      ensures SchemaFromRef(RefTo(prefix + name).ref) == (if name in schemas then schemas[name] else None)
      ensures TypeFromRef(prefix + name) == Ok(if name in types then Some(types[name]) else None)
    {
      assert (prefix + name)[|prefix|..] == name;
      assert (prefix + name)[..|prefix|] == prefix;
      ByteLenConcat(prefix, name);
    }

    /** TypeFromRef ignores what the first len(prefix) bytes are, while
        SchemaFromRef refuses a ref that does not start with the prefix:
        another leading text of the same byte length finds the same type and
        no schema. */
    lemma RefPrefixAsymmetry(other: string, name: string)
      requires ByteLen(other) == ByteLen(prefix) && other != prefix
      ensures TypeFromRef(other + name) == TypeFromRef(prefix + name)
      ensures SchemaFromRef(other + name).None?
    {
      RefRoundTrip(name);
      var forged := other + name;
      assert forged[|other|..] == name;
      assert forged[..|other|] == other;
      ByteLenConcat(other, name);
      if HasPrefix(forged, prefix) {
        assert forged[..|prefix|] == prefix;
        if |prefix| < |other| {
          ByteLenPrefixMono(forged, |prefix|, |other|);
        } else if |other| < |prefix| {
          ByteLenPrefixMono(forged, |other|, |prefix|);
        }
        assert false;
      }
    }
  }

  /** The pointer-free type of a decayed type is that of the original. */
  lemma StripDecayed(u: Universe, t: TypeId)
    requires WF(u) && t in u.types
    ensures Strip(u, Decayed(u, t)) == Strip(u, t)
  {
    StripIdempotent(u, t);
  }

  /** SchemaFromType: derive, then let a SchemaTransformer rewrite the result. */
  method SchemaFromType(r: Registry, t: TypeId, depth: nat) returns (res: Result<Option<SchemaNode>>)
    requires r.Valid() && t in r.universe.types
    modifies r`schemas, r`types, r`seen
    ensures r.Valid() && Extended(old(r.State()), r.State())
    ensures res.Fail? ==> DuplicateHeld(r.State(), res.abort)
    ensures Derives(r.Context(), t, depth, old(r.State()), r.State(), res)
    decreases depth, 12
  {
    var s :- DeriveSchema(r, t, depth);
    var st := Deref(r.universe, t);
    assert Derived(r.Context(), t, depth, s);
    if r.universe.types[st].schemaTransformer {
      return Ok(r.hooks.transform(st, s));
    }
    return Ok(s);
  }

  /** schemaFromType: the pure cases through Classify, the recursive ones by
      asking the registry. */
  method DeriveSchema(r: Registry, t: TypeId, depth: nat) returns (res: Result<Option<SchemaNode>>)
    requires r.Valid() && t in r.universe.types
    modifies r`schemas, r`types, r`seen
    ensures r.Valid() && Extended(old(r.State()), r.State())
    ensures res.Fail? ==> DuplicateHeld(r.State(), res.abort)
    ensures var st := Strip(r.universe, t);
      var c := Classify(r.universe, r.hooks, st, r.universe.types[t].kind == Pointer);
      c.Done? ==> res == Ok(c.node) && r.State() == old(r.State())
    ensures res.Ok? ==> Derived(r.Context(), t, depth, res.value)
    ensures res.Fail? ==> DeriveAbort(r.Context(), t, depth, res.abort)
    decreases depth, 11
  {
    var u := r.universe;
    var isPointer := u.types[t].kind == Pointer;
    var oriT := t;
    var st := Deref(u, t);
    var c := Classify(u, r.hooks, st, isPointer);
    ghost var before := r.State();
    match c
    case Done(n) =>
      res := Ok(n);
    case Sequence(elem, bound) =>
      var items := r.Schema(elem, true, u.types[st].name + "Item", depth);
      RequestOutcome(r.Context(), elem, u.types[st].name + "Item", depth, true, before, r.State(), items);
      if items.Fail? {
        res := Fail(items.abort);
      } else {
        assert DerivedBy(r.Context(), t, c, depth, Some(SequenceNode(items.value, bound)));
        res := Ok(Some(SequenceNode(items.value, bound)));
      }
    case MapOf(elem) =>
      var values := r.Schema(elem, true, u.types[st].name + "Value", depth);
      RequestOutcome(r.Context(), elem, u.types[st].name + "Value", depth, true, before, r.State(), values);
      if values.Fail? {
        res := Fail(values.abort);
      } else {
        assert DerivedBy(r.Context(), t, c, depth, Some(MapNode(values.value)));
        res := Ok(Some(MapNode(values.value)));
      }
    case StructOf =>
      var s, complete, subs := StructSchema(r, st, oriT, depth);
      if s.Fail? {
        res := Fail(s.abort);
      } else {
        assert complete;
        ghost var ctx := StructCtx(u, st, u.types[t].methods, StructFields(u, st));
        assert |subs| == |ctx.fields| && SubsAnswered(r.Context(), ctx, depth, subs) && StructOutcome(ctx, subs) == Ok(s.value);
        assert DerivedBy(r.Context(), t, c, depth, Some(s.value));
        res := Ok(Some(s.value));
      }
  }

  /** The struct case: walk the fields, asking the registry for each field's
      schema and each oneof alternative's, then close the object. When every
      nested request was answered (`complete`), `subs` are those answers and
      the outcome is StructOutcome of them; a panic is one of the struct case. */
  method StructSchema(r: Registry, st: TypeId, oriT: TypeId, depth: nat)
    returns (res: Result<SchemaNode>, ghost complete: bool, ghost subs: seq<seq<Option<SchemaNode>>>)
    requires r.Valid() && st in r.universe.types && oriT in r.universe.types
    modifies r`schemas, r`types, r`seen
    ensures r.Valid() && Extended(old(r.State()), r.State())
    ensures res.Fail? ==> DuplicateHeld(r.State(), res.abort)
    ensures !complete ==> res.Fail?
    ensures var c := StructCtx(r.universe, st, r.universe.types[oriT].methods, StructFields(r.universe, st));
      complete ==> |subs| == |c.fields| && SubsAnswered(r.Context(), c, depth, subs) && res == StructOutcome(c, subs)
    ensures res.Fail? ==>
      StructAbort(r.Context(), StructCtx(r.universe, st, r.universe.types[oriT].methods, StructFields(r.universe, st)), depth, res.abort)
    decreases depth, 10
  {
    var u := r.universe;
    var fields, _ := GetFields(u, st, {});
    AllFieldTypesKnown(u, st);
    var c := StructCtx(u, st, u.types[oriT].methods, fields);
    var walked;
    walked, complete, subs := WalkFields(r, c, oriT, depth);
    if walked.Fail? {
      res := Fail(walked.abort);
    } else {
      res := CloseObject(c, walked.value);
      CloseFails(c, walked.value);
      assert Plan(c.fields, |subs|).Ok?;
    }
  }

  /** The field loop of the struct case: every field in turn is skipped,
      expanded into oneof alternatives or added as a property. When every
      nested request was answered (`complete`), `subs` are those answers and
      the accumulators are Walked of them; a panic is a malformed tag or one
      of a nested request. */
  method WalkFields(r: Registry, c: StructCtx, oriT: TypeId, depth: nat)
    returns (res: Result<Acc>, ghost complete: bool, ghost subs: seq<seq<Option<SchemaNode>>>)
    requires r.Valid() && c.u == r.universe && c.st in r.universe.types && oriT in r.universe.types
    requires c.methods == r.universe.types[oriT].methods
    requires forall i :: 0 <= i < |c.fields| ==> c.fields[i].field.typ in r.universe.types
    modifies r`schemas, r`types, r`seen
    ensures r.Valid() && Extended(old(r.State()), r.State())
    ensures res.Fail? ==> DuplicateHeld(r.State(), res.abort)
    ensures !complete ==> res.Fail?
    ensures complete ==> |subs| == |c.fields| && SubsAnswered(r.Context(), c, depth, subs) && res == Walked(c, subs)
    ensures res.Fail? ==> WalkAbort(r.Context(), c, depth, res.abort)
    decreases depth, 9
  {
    var fields := c.fields;
    var fieldSet: set<string> := {};
    var acc := START;
    ghost var actions: seq<Action> := [];
    subs := [];
    complete := true;

    for i := 0 to |fields|
      invariant |subs| == |actions| == i
      invariant Plan(fields, i) == Ok(actions)
      invariant fieldSet == NamesBefore(fields, i)
      invariant acc == Assemble(c, actions, subs)
      invariant SubsAnswered(r.Context(), c, depth, subs)
      invariant r.Valid() && Extended(old(r.State()), r.State())
    {
      var f := fields[i].field;
      PlanStep(fields, i, actions);
      NamesStep(fields, i);
      var next, sub := WalkField(r, c, oriT, i, fieldSet, acc, depth, subs);
      if next.Fail? {
        return Fail(next.abort), false, subs;
      }
      if TagGet(f.tag, "protobuf_oneof") == "" {
        fieldSet := fieldSet + {f.name};
      }
      acc := next.value;
      AssembleStep(c, actions, subs, ActionOf(fields, i).value, sub);
      SubsAnsweredStep(r.Context(), c, depth, subs, sub);
      actions, subs := actions + [ActionOf(fields, i).value], subs + [sub];
    }
    res := Ok(acc);
  }

  /** One turn of the field loop: field `i`'s action, then its effect on the
      accumulators; a panic is the field's malformed tag or one of its nested
      requests. */
  method WalkField(
    r: Registry, c: StructCtx, oriT: TypeId, i: nat, fieldSet: set<string>, acc: Acc, depth: nat,
    ghost done: seq<seq<Option<SchemaNode>>>)
    returns (res: Result<Acc>, ghost sub: seq<Option<SchemaNode>>)
    requires r.Valid() && c.u == r.universe && c.st in r.universe.types && oriT in r.universe.types
    requires c.methods == r.universe.types[oriT].methods
    requires i < |c.fields| && c.fields[i].field.typ in r.universe.types
    requires fieldSet == NamesBefore(c.fields, i)
    requires |done| == i && Plan(c.fields, i).Ok? && SubsAnswered(r.Context(), c, depth, done)
    modifies r`schemas, r`types, r`seen
    ensures r.Valid() && Extended(old(r.State()), r.State())
    ensures res.Fail? ==> DuplicateHeld(r.State(), res.abort)
    ensures res.Ok? ==>
      && ActionOf(c.fields, i).Ok?
      && res.value == Apply(c, acc, i, ActionOf(c.fields, i).value, sub)
      && FieldAnswered(r.Context(), c, i, depth, sub)
    ensures res.Fail? ==> WalkAbort(r.Context(), c, depth, res.abort)
    decreases depth, 8
  {
    var action := FieldAction(c.fields, i, fieldSet);
    if action.Fail? {
      TagPanics(c.fields, i);
      res, sub := Fail(action.abort), [];
    } else {
      res, sub := FieldStep(r, c, oriT, i, action.value, acc, depth);
    }
    if res.Fail? {
      WalkStops(r.Context(), c, depth, done, res.abort);
    }
  }

  /** The effect of one field's action on the accumulators: nothing for a
      skipped field, the alternatives of a oneof group, or a property; `sub`
      are the answers the registry gave for the field. */
  method FieldStep(r: Registry, c: StructCtx, oriT: TypeId, i: nat, action: Action, acc: Acc, depth: nat)
    returns (res: Result<Acc>, ghost sub: seq<Option<SchemaNode>>)
    requires r.Valid() && c.u == r.universe && c.st in r.universe.types && oriT in r.universe.types
    requires c.methods == r.universe.types[oriT].methods
    requires i < |c.fields| && c.fields[i].field.typ in r.universe.types
    requires ActionOf(c.fields, i) == Ok(action)
    modifies r`schemas, r`types, r`seen
    ensures r.Valid() && Extended(old(r.State()), r.State())
    ensures res.Fail? ==> DuplicateHeld(r.State(), res.abort)
    ensures res.Ok? ==> res.value == Apply(c, acc, i, action, sub) && FieldAnswered(r.Context(), c, i, depth, sub)
    ensures res.Fail? ==> FieldAbort(r.Context(), c, i, depth, res.abort)
    decreases depth, 7
  {
    match action
    case Skip =>
      return Ok(acc), [];
    case Alternatives =>
      var alts;
      alts, sub := OneOfAlternatives(r, c, c.st, oriT, c.fields, depth);
      if alts.Fail? {
        return Fail(alts.abort), sub;
      }
      return Ok(acc.(oneOf := acc.oneOf + alts.value, ignoreAP := acc.ignoreAP || alts.value != [])), sub;
    case Property(name, required, dependents) =>
      res, sub := AddProperty(r, c, i, c.st, name, required, dependents, acc, depth);
  }

  /** One documented field: record its dependents, ask the registry for its
      schema and, unless that is nil, store it as a property (adjusted for
      protojson and omitempty pointers) and note whether it is required.
      `sub` holds the one answer the registry gave. */
  method AddProperty(r: Registry, c: StructCtx, i: nat, st: TypeId,
                     name: string, required: bool, dependents: Option<seq<string>>, acc: Acc, depth: nat)
    returns (res: Result<Acc>, ghost sub: seq<Option<SchemaNode>>)
    requires r.Valid() && c.u == r.universe && st == c.st && st in r.universe.types
    requires i < |c.fields| && c.fields[i].field.typ in r.universe.types
    modifies r`schemas, r`types, r`seen
    ensures r.Valid() && Extended(old(r.State()), r.State())
    ensures res.Fail? ==> DuplicateHeld(r.State(), res.abort)
    ensures res.Ok? ==> res.value == Apply(c, acc, i, Property(name, required, dependents), sub)
    ensures res.Ok? ==> |sub| == 1 && Answers(r.Context(), c.fields[i].field.typ, FieldHint(c, i), depth, sub[0])
    ensures res.Fail? ==> RequestAbort(r.Context(), c.fields[i].field.typ, FieldHint(c, i), depth, res.abort)
    decreases depth, 6
  {
    var u := r.universe;
    var f := c.fields[i].field;
    var next := acc;
    if dependents.Some? {
      next := next.(depMap := next.depMap[name := dependents.value]);
    }
    var fs := SchemaFromField(r, f, u.types[st].name + f.name + "Struct", depth);
    if fs.Fail? {
      return Fail(fs.abort), [];
    }
    sub := [fs.value];
    ApplyProperty(c, acc, i, name, required, dependents, fs.value);
    if fs.value.Some? {
      var node := fs.value.value;
      if TagGet(f.tag, "protobuf") != "" && u.types[f.typ].kind == Int64 {
        // protojson writes 64-bit integers as strings.
        node := node.(typ := TypeString);
      }
      // Go stores the pointer first and clears Nullable through it afterwards;
      // on values the cleared node is the one stored.
      if u.types[f.typ].kind == Pointer && Contains(TagGet(f.tag, "json"), "omitempty") && TagGet(f.tag, "nullable") != "true" {
        node := node.(nullable := false);
      }
      assert node == Adjust(u, f, fs.value.value);
      next := next.(props := next.props[name := node]);
      if required {
        next := next.(required := next.required + [name]);
      }
    }
    res := Ok(next);
  }

  /** huma.SchemaFromField, reduced to the request it makes: the schema of
      the field's type, a ref where one is allowed. */
  method SchemaFromField(r: Registry, f: Field, hint: string, depth: nat) returns (res: Result<Option<SchemaNode>>)
    requires r.Valid() && f.typ in r.universe.types
    modifies r`schemas, r`types, r`seen
    ensures r.Valid() && Extended(old(r.State()), r.State())
    ensures res.Fail? ==> DuplicateHeld(r.State(), res.abort)
    ensures res.Ok? ==> Answers(r.Context(), f.typ, hint, depth, res.value)
    ensures res.Ok? && RefEligible(r.universe, Strip(r.universe, f.typ)) && Strip(r.universe, f.typ) !in r.aliases ==>
      res.value == Some(RefTo(r.prefix + r.namer(Decayed(r.universe, f.typ), hint)))
    ensures res.Fail? ==> RequestAbort(r.Context(), f.typ, hint, depth, res.abort)
    decreases depth, 5
  {
    ghost var before := r.State();
    res := r.Schema(f.typ, true, hint, depth);
    RequestOutcome(r.Context(), f.typ, hint, depth, true, before, r.State(), res);
  }

  /** The oneof case for one field: every eligible method of the type as it
      was handed over yields an alternative named after the method, unless
      the registry answers nil for its result type. `sub` holds the answer
      for each method, none for an ineligible one. */
  method OneOfAlternatives(r: Registry, ghost c: StructCtx, st: TypeId, oriT: TypeId, fields: seq<FieldInfo>, depth: nat)
    returns (res: Result<seq<SchemaNode>>, ghost sub: seq<Option<SchemaNode>>)
    requires r.Valid() && st == c.st && st in r.universe.types && oriT in r.universe.types
    requires c.u == r.universe && c.methods == r.universe.types[oriT].methods && c.fields == fields
    modifies r`schemas, r`types, r`seen
    ensures r.Valid() && Extended(old(r.State()), r.State())
    ensures res.Fail? ==> DuplicateHeld(r.State(), res.abort)
    ensures res.Ok? ==> |sub| == |c.methods| && res.value == Alts(c, sub) && AltsAnswered(r.Context(), c, depth, sub)
    ensures res.Fail? ==>
      exists done :: |done| < |c.methods| && AltsAnswered(r.Context(), c, depth, done) && AltAbort(r.Context(), c, |done|, depth, res.abort)
    decreases depth, 6
  {
    var u := r.universe;
    var methods := u.types[oriT].methods;
    var alts: seq<SchemaNode> := [];
    sub := [];
    for k := 0 to |methods|
      invariant |sub| == k && alts == Alts(c, sub)
      invariant AltsAnswered(r.Context(), c, depth, sub)
      invariant r.Valid() && Extended(old(r.State()), r.State())
    {
      var m := methods[k];
      if m.numOut != 1 || !HasPrefix(m.name, "Get")
        || exists j :: 0 <= j < |fields| && m.name == "Get" + fields[j].field.name
      {
        AltsStep(c, sub, None);
        AltsAnsweredStep(r.Context(), c, depth, sub, None);
        sub := sub + [None];
        continue;
      }
      ClosedAt(u, oriT);
      ghost var mid := r.State();
      var fs := AltSchema(r, c, k, st, m.out0, depth);
      ExtendedTrans(old(r.State()), mid, r.State());
      if fs.Fail? {
        assert AltsAnswered(r.Context(), c, depth, sub) && AltAbort(r.Context(), c, |sub|, depth, fs.abort);
        return Fail(fs.abort), sub;
      }
      AltsStep(c, sub, fs.value);
      AltsAnsweredStep(r.Context(), c, depth, sub, fs.value);
      sub := sub + [fs.value];
      if fs.value.None? {
        continue;
      }
      alts := alts + [Alternative(GetName(m.name), fs.value.value)];
    }
    res := Ok(alts);
  }

  /** The request for the result type of the `k`-th method, an eligible one,
      with the struct's name and the result type's name as the hint. */
  method AltSchema(r: Registry, ghost c: StructCtx, k: nat, st: TypeId, cft: TypeId, depth: nat)
    returns (res: Result<Option<SchemaNode>>)
    requires r.Valid() && c.u == r.universe && st == c.st && st in r.universe.types
    requires k < |c.methods| && cft == c.methods[k].out0 && cft in r.universe.types && Eligible(c, c.methods[k])
    modifies r`schemas, r`types, r`seen
    ensures r.Valid() && Extended(old(r.State()), r.State())
    ensures res.Fail? ==> DuplicateHeld(r.State(), res.abort)
    ensures res.Ok? ==> AltAnswered(r.Context(), c, k, depth, res.value)
    ensures res.Fail? ==> AltAbort(r.Context(), c, k, depth, res.abort)
    decreases depth, 5
  {
    var u := r.universe;
    ghost var before := r.State();
    res := r.Schema(cft, true, u.types[st].name + u.types[cft].name + "Struct", depth);
    RequestOutcome(r.Context(), cft, AltHint(c, k), depth, true, before, r.State(), res);
  }
}
