/** The registry's state as values: what a consistent registry holds, how a
    request may change it, and what a request answers. */
module RegistryState {
  import opened Types
  import opened Schemas
  import opened Kinds
  import opened Fields
  import opened Structs

  /** The three maps of the registry: the schema and the type under each
      name, and the set of named types. */
  datatype Snapshot = Snapshot(schemas: map<string, Option<SchemaNode>>, types: map<string, TypeId>, seen: set<TypeId>)

  /** Only struct types are named and referenced; time.Time, schema providers
      and text unmarshalers are not, because their schema is not an object. */
  predicate RefEligible(u: Universe, st: TypeId)
    requires st in u.types
  {
    var d := u.types[st];
    d.kind == Struct && d.wellKnown != TimeTime && !d.schemaProvider && !d.textUnmarshaler
  }

  /** A registry that makes sense: every name has a schema and a type, `seen`
      holds exactly the named types, every named type is a struct eligible
      for a ref, and aliases lead from known types to known types. */
  ghost predicate Consistent(u: Universe, s: Snapshot, aliases: map<TypeId, TypeId>) {
    && WF(u)
    && s.schemas.Keys == s.types.Keys
    && s.seen == s.types.Values
    && (forall n :: n in s.types ==> s.types[n] in u.types && RefEligible(u, s.types[n]))
    && aliases.Keys <= u.types.Keys
    && aliases.Values <= u.types.Keys
  }

  /** Every entry of `a` is in `b`, unchanged. */
  ghost predicate Grows<V>(a: map<string, V>, b: map<string, V>) {
    forall n :: n in a ==> n in b && b[n] == a[n]
  }

  /** Entries are only ever added: what was there before is still there, with
      the same schema and type. */
  ghost predicate Extended(before: Snapshot, after: Snapshot) {
    Grows(before.schemas, after.schemas) && Grows(before.types, after.types) && before.seen <= after.seen
  }

  lemma ExtendedTrans(a: Snapshot, b: Snapshot, c: Snapshot)
    requires Extended(a, b) && Extended(b, c)
    ensures Extended(a, c)
  {
  }

  /** A registered name keeps its type as the state is extended. */
  lemma ExtendedKeeps(a: Snapshot, b: Snapshot, name: string, st: TypeId)
    requires Extended(a, b)
    requires name in a.schemas && name in a.types && a.types[name] == st && st in a.seen
    ensures name in b.schemas && name in b.types && b.types[name] == st && st in b.seen
  {
  }

  /** Registering a new name extends the state. */
  lemma ExtendedByRegister(a: Snapshot, name: string, st: TypeId)
    requires name !in a.schemas && name !in a.types
    ensures Extended(a, Snapshot(a.schemas[name := Some(EMPTY)], a.types[name := st], a.seen + {st}))
  {
  }

  /** Overwriting the schema of a name the earlier state lacked keeps it
      extended. */
  lemma ExtendedByStore(a: Snapshot, b: Snapshot, name: string, s: Option<SchemaNode>)
    requires Extended(a, b) && name !in a.schemas
    ensures Extended(a, b.(schemas := b.schemas[name := s]))
  {
  }

  /** A new key adds its value to the values of a map. */
  lemma ValuesAdd(m: map<string, TypeId>, k: string, v: TypeId)
    requires k !in m
    ensures m[k := v].Values == m.Values + {v}
  {
    var m' := m[k := v];
    assert m'[k] == v;
    forall x | x in m.Values ensures x in m'.Values {
      var j :| j in m && m[j] == x;
      assert m'[j] == x;
    }
  }

  /** Registering a ref-eligible struct under a new name keeps the registry
      consistent. */
  lemma ConsistentRegister(u: Universe, a: Snapshot, aliases: map<TypeId, TypeId>, name: string, st: TypeId)
    requires Consistent(u, a, aliases) && name !in a.schemas && st in u.types && RefEligible(u, st)
    ensures Consistent(u, Snapshot(a.schemas[name := Some(EMPTY)], a.types[name := st], a.seen + {st}), aliases)
  {
    ValuesAdd(a.types, name, st);
  }

  /** The type the registry ends up working on once aliases are followed
      from `t` (each alias is looked up on the pointer-free type), and the
      levels left after following them; None when more than `n` aliases
      would have to be followed. */
  function Resolve(u: Universe, aliases: map<TypeId, TypeId>, t: TypeId, n: nat): (r: Option<(TypeId, nat)>)
    requires WF(u) && t in u.types && aliases.Values <= u.types.Keys
    ensures r.Some? ==> r.value.0 in u.types && Strip(u, r.value.0) !in aliases && r.value.1 <= n
    ensures Strip(u, t) !in aliases ==> r == Some((t, n))
    decreases n
  {
    var st := Strip(u, t);
    if st !in aliases then Some((t, n))
    else if n == 0 then None
    else
      assert aliases[st] in aliases.Values;
      Resolve(u, aliases, aliases[st], n - 1)
  }

  /** SchemaFromType's last step: a type implementing SchemaTransformer
      rewrites the derived (possibly nil) node. */
  function Finish(u: Universe, hooks: Hooks, st: TypeId, s: Option<SchemaNode>): Option<SchemaNode>
    requires st in u.types
  {
    if u.types[st].schemaTransformer then hooks.transform(st, s) else s
  }

  /** The fields of a struct in the order the walker sees them. */
  ghost function StructFields(u: Universe, st: TypeId): seq<FieldInfo>
    requires WF(u) && st in u.types
  {
    AllFields(u, st, {}).0
  }

  /** The registry's parts a request reads but never changes: the type
      table, the interface hooks, the ref prefix, the namer and the alias
      table. */
  datatype Env = Env(
    u: Universe, hooks: Hooks, prefix: string, namer: (TypeId, string) -> string, aliases: map<TypeId, TypeId>)

  ghost predicate EnvOk(e: Env) {
    WF(e.u) && e.aliases.Values <= e.u.types.Keys
  }

  // ---- What a request answers, level by level ----
  // The predicates below call each other as the registry and the walker do;
  // `d` is the number of levels the request starts with.

  /** What a nested request for `t` under `hint` (refs allowed) answers with
      `d` levels: once the aliases are followed, a named struct answers a ref
      to the name the namer gives it, and any other type what SchemaFromType
      returns for it with one level less. Running out of levels while
      following aliases answers nothing. */
  ghost predicate Answers(e: Env, t: TypeId, hint: string, d: nat, x: Option<SchemaNode>)
    requires EnvOk(e) && t in e.u.types
    decreases d, 0
  {
    match Resolve(e.u, e.aliases, t, d)
    case None => false
    case Some((tt, d')) =>
      if RefEligible(e.u, Strip(e.u, tt)) then x == Some(RefTo(e.prefix + e.namer(Decayed(e.u, tt), hint)))
      else d' > 0 && FromType(e, Decayed(e.u, tt), d' - 1, x)
  }

  /** The answer for the `k`-th method of a oneof group: an eligible method
      is answered for its result type, any other has no answer. */
  ghost predicate AltAnswered(e: Env, c: StructCtx, k: nat, d: nat, x: Option<SchemaNode>)
    requires EnvOk(e) && c.u == e.u && c.st in e.u.types && k < |c.methods|
    decreases d, 1
  {
    var m := c.methods[k];
    if Eligible(c, m) && m.out0 in e.u.types then Answers(e, m.out0, AltHint(c, k), d, x)
    else x.None?
  }

  /** Every one of the first |sub| methods of a oneof group got its answer. */
  ghost predicate AltsAnswered(e: Env, c: StructCtx, d: nat, sub: seq<Option<SchemaNode>>)
    requires EnvOk(e) && c.u == e.u && c.st in e.u.types && |sub| <= |c.methods|
    decreases d, 2
  {
    forall k :: 0 <= k < |sub| ==> AltAnswered(e, c, k, d, sub[k])
  }

  /** The answers the walk received for field `i`: the one answer for the
      field's own type when it is a property, one per method of the type
      when it is a oneof group, none when it is skipped. */
  ghost predicate FieldAnswered(e: Env, c: StructCtx, i: nat, d: nat, sub: seq<Option<SchemaNode>>)
    requires EnvOk(e) && c.u == e.u && c.st in e.u.types && i < |c.fields|
    decreases d, 3
  {
    match ActionOf(c.fields, i)
    case Ok(Property(_, _, _)) =>
      && |sub| == 1 && c.fields[i].field.typ in e.u.types
      && Answers(e, c.fields[i].field.typ, FieldHint(c, i), d, sub[0])
    case Ok(Alternatives) => |sub| == |c.methods| && AltsAnswered(e, c, d, sub)
    case _ => sub == []
  }

  /** Every one of the first |subs| fields received its answers. */
  ghost predicate SubsAnswered(e: Env, c: StructCtx, d: nat, subs: seq<seq<Option<SchemaNode>>>)
    requires EnvOk(e) && c.u == e.u && c.st in e.u.types && |subs| <= |c.fields|
    decreases d, 4
  {
    forall i :: 0 <= i < |subs| ==> FieldAnswered(e, c, i, d, subs[i])
  }

  /** What schemaFromType derives for `t` with `d` levels, before any
      transformer, going by what Classify makes of the type. */
  ghost predicate Derived(e: Env, t: TypeId, d: nat, s: Option<SchemaNode>)
    requires EnvOk(e) && t in e.u.types
    decreases d, 6
  {
    var st := Strip(e.u, t);
    ClosedAt(e.u, st);
    DerivedBy(e, t, Classify(e.u, e.hooks, st, e.u.types[t].kind == Pointer), d, s)
  }

  /** What schemaFromType derives for `t` whose dispatch is `k`: the settled
      node of a scalar, provider or well-known type; a sequence node with
      the array's bounds over the answer for the element type; a map node
      over the answer for the value type; or the object StructOutcome
      assembles from the answers to the struct's own nested requests. */
  ghost predicate DerivedBy(e: Env, t: TypeId, k: Dispatch, d: nat, s: Option<SchemaNode>)
    requires EnvOk(e) && t in e.u.types
    requires Closed(e.u.types, e.u.types[Strip(e.u, t)]) && k == Classify(e.u, e.hooks, Strip(e.u, t), e.u.types[t].kind == Pointer)
    decreases d, 5
  {
    var u := e.u;
    var st := Strip(u, t);
    match k
    case Done(n) => s == n
    case Sequence(elem, bound) =>
      && s.Some? && s.value == SequenceNode(s.value.items, bound)
      && Answers(e, elem, u.types[st].name + "Item", d, s.value.items)
    case MapOf(elem) =>
      && s.Some? && s.value.additionalProperties.APSchema?
      && s.value == MapNode(s.value.additionalProperties.values)
      && Answers(e, elem, u.types[st].name + "Value", d, s.value.additionalProperties.values)
    case StructOf =>
      var c := StructCtx(u, st, u.types[t].methods, StructFields(u, st));
      && s.Some?
      && exists subs :: |subs| == |c.fields| && SubsAnswered(e, c, d, subs) && StructOutcome(c, subs) == Ok(s.value)
  }

  /** What SchemaFromType returns for `t` with `d` levels: a derived node,
      rewritten by the SchemaTransformer of the pointer-free type when it
      has one. */
  ghost predicate FromType(e: Env, t: TypeId, d: nat, s: Option<SchemaNode>)
    requires EnvOk(e) && t in e.u.types
    decreases d, 7
  {
    exists n :: Derived(e, t, d, n) && s == Finish(e.u, e.hooks, Strip(e.u, t), n)
  }

  /** One more method of a oneof group answered. */
  lemma AltsAnsweredStep(e: Env, c: StructCtx, d: nat, sub: seq<Option<SchemaNode>>, x: Option<SchemaNode>)
    requires EnvOk(e) && c.u == e.u && c.st in e.u.types && |sub| < |c.methods|
    requires AltsAnswered(e, c, d, sub) && AltAnswered(e, c, |sub|, d, x)
    ensures AltsAnswered(e, c, d, sub + [x])
  {
  }

  /** One more field answered. */
  lemma SubsAnsweredStep(e: Env, c: StructCtx, d: nat, subs: seq<seq<Option<SchemaNode>>>, sub: seq<Option<SchemaNode>>)
    requires EnvOk(e) && c.u == e.u && c.st in e.u.types && |subs| < |c.fields|
    requires SubsAnswered(e, c, d, subs) && FieldAnswered(e, c, |subs|, d, sub)
    ensures SubsAnswered(e, c, d, subs + [sub])
  {
  }

  // ---- Which panics a request ends in, level by level ----

  /** The panics a nested request for `t` under `hint` may end in with `d`
      levels: running out of levels, a named struct whose name another type
      holds, or a panic of the walk of the type. */
  ghost predicate RequestAbort(e: Env, t: TypeId, hint: string, d: nat, a: Abort)
    requires EnvOk(e) && t in e.u.types
    decreases d, 0
  {
    match Resolve(e.u, e.aliases, t, d)
    case None => a == StackExhausted
    case Some((tt, d')) =>
      var st := Strip(e.u, tt);
      || (d' == 0 && a == StackExhausted)
      || (RefEligible(e.u, st) && a.DuplicateName? && a.name == e.namer(Decayed(e.u, tt), hint) && a.newType == st)
      || (d' > 0 && DeriveAbort(e, Decayed(e.u, tt), d' - 1, a))
  }

  /** A DuplicateName panic names a name the registry holds in `s`, the
      type under it, and a type the registry has not named. */
  ghost predicate DuplicateHeld(s: Snapshot, a: Abort) {
    a.DuplicateName? ==> a.name in s.types && s.types[a.name] == a.existingType && a.newType !in s.seen
  }

  /** A panic of the request for the `k`-th method of a oneof group. */
  ghost predicate AltAbort(e: Env, c: StructCtx, k: nat, d: nat, a: Abort)
    requires EnvOk(e) && c.u == e.u && c.st in e.u.types && k < |c.methods|
    decreases d, 1
  {
    var m := c.methods[k];
    Eligible(c, m) && m.out0 in e.u.types && RequestAbort(e, m.out0, AltHint(c, k), d, a)
  }

  /** A panic of a request the walk makes for field `i`. */
  ghost predicate FieldAbort(e: Env, c: StructCtx, i: nat, d: nat, a: Abort)
    requires EnvOk(e) && c.u == e.u && c.st in e.u.types && i < |c.fields|
    decreases d, 2
  {
    match ActionOf(c.fields, i)
    case Ok(Property(_, _, _)) =>
      c.fields[i].field.typ in e.u.types && RequestAbort(e, c.fields[i].field.typ, FieldHint(c, i), d, a)
    case Ok(Alternatives) =>
      // the methods are asked in order: those before the one that panics were answered
      exists sub :: |sub| < |c.methods| && AltsAnswered(e, c, d, sub) && AltAbort(e, c, |sub|, d, a)
    case _ => false
  }

  /** A panic of the field loop: the fields before the one that panics have
      well-formed tags and their requests were answered by `subs`; that
      field has a malformed tag or one of its requests panics. */
  ghost predicate WalkAbort(e: Env, c: StructCtx, d: nat, a: Abort)
    requires EnvOk(e) && c.u == e.u && c.st in e.u.types
    decreases d, 3
  {
    exists subs ::
      && |subs| < |c.fields| && SubsAnswered(e, c, d, subs) && Plan(c.fields, |subs|).Ok?
      && (ActionOf(c.fields, |subs|) == Fail(a) || FieldAbort(e, c, |subs|, d, a))
  }

  /** The loop stops at field `|done|` when its tags are malformed or one of
      its requests panics, the fields before it answered. */
  lemma WalkStops(e: Env, c: StructCtx, d: nat, done: seq<seq<Option<SchemaNode>>>, a: Abort)
    requires EnvOk(e) && c.u == e.u && c.st in e.u.types
    requires |done| < |c.fields| && SubsAnswered(e, c, d, done) && Plan(c.fields, |done|).Ok?
    requires ActionOf(c.fields, |done|) == Fail(a) || FieldAbort(e, c, |done|, d, a)
    ensures WalkAbort(e, c, d, a)
  {
  }

  /** The panics of the struct case: one of the field loop, or, once every
      field's requests were answered, the panic of closing the object
      (missing dependents, or a malformed `_` tag where it is read). */
  ghost predicate StructAbort(e: Env, c: StructCtx, d: nat, a: Abort)
    requires EnvOk(e) && c.u == e.u && c.st in e.u.types
    decreases d, 4
  {
    || WalkAbort(e, c, d, a)
    || exists subs ::
         && |subs| == |c.fields| && SubsAnswered(e, c, d, subs) && Plan(c.fields, |subs|).Ok?
         && StructOutcome(c, subs) == Fail(a)
  }

  /** The panics schemaFromType may end in for `t` with `d` levels, going
      by what Classify makes of the type. */
  ghost predicate DeriveAbort(e: Env, t: TypeId, d: nat, a: Abort)
    requires EnvOk(e) && t in e.u.types
    decreases d, 6
  {
    var st := Strip(e.u, t);
    ClosedAt(e.u, st);
    DispatchAbort(e, t, Classify(e.u, e.hooks, st, e.u.types[t].kind == Pointer), d, a)
  }

  /** The panics schemaFromType may end in for `t` whose dispatch is `k`:
      none for a settled type, those of the element or value request, or
      those of the struct case. */
  ghost predicate DispatchAbort(e: Env, t: TypeId, k: Dispatch, d: nat, a: Abort)
    requires EnvOk(e) && t in e.u.types
    requires Closed(e.u.types, e.u.types[Strip(e.u, t)]) && k == Classify(e.u, e.hooks, Strip(e.u, t), e.u.types[t].kind == Pointer)
    decreases d, 5
  {
    var u := e.u;
    var st := Strip(u, t);
    match k
    case Done(_) => false
    case Sequence(elem, _) => RequestAbort(e, elem, u.types[st].name + "Item", d, a)
    case MapOf(elem) => RequestAbort(e, elem, u.types[st].name + "Value", d, a)
    case StructOf => StructAbort(e, StructCtx(u, st, u.types[t].methods, StructFields(u, st)), d, a)
  }

  /** Without a transformer, what SchemaFromType returns is exactly what
      schemaFromType derives; with one, it is the transformer's answer for
      some derived node. */
  lemma {:induction false} FromTypeCases(e: Env, t: TypeId, d: nat, s: Option<SchemaNode>)
    requires EnvOk(e) && t in e.u.types
    ensures !e.u.types[Strip(e.u, t)].schemaTransformer ==> (FromType(e, t, d, s) <==> Derived(e, t, d, s))
    ensures e.u.types[Strip(e.u, t)].schemaTransformer ==>
      (FromType(e, t, d, s) <==> exists n :: Derived(e, t, d, n) && s == e.hooks.transform(Strip(e.u, t), n))
  {
    if !e.u.types[Strip(e.u, t)].schemaTransformer && Derived(e, t, d, s) {
      assert s == Finish(e.u, e.hooks, Strip(e.u, t), s);
    }
  }

  /** What a request answers for a type `tt` (aliases already followed) with
      `d` levels left, and the state it leaves: a named struct is answered
      through its name, any other type by deriving its schema afresh. */
  ghost predicate Answer(
    e: Env, tt: TypeId, d: nat, allowRef: bool, hint: string,
    before: Snapshot, after: Snapshot, res: Result<Option<SchemaNode>>)
    requires EnvOk(e) && tt in e.u.types
  {
    var st := Strip(e.u, tt);
    var orig := Decayed(e.u, tt);
    if RefEligible(e.u, st) then AnswerNamed(e, e.namer(orig, hint), st, orig, d, allowRef, before, after, res)
    else AnswerUnnamed(e, orig, d, before, after, res)
  }

  /** What a name already taken answers: a ref or the stored schema when
      the type was seen before, a panic when another type holds the name. */
  function Cached(prefix: string, name: string, st: TypeId, allowRef: bool, before: Snapshot): Result<Option<SchemaNode>>
    requires name in before.schemas && name in before.types
  {
    if st !in before.seen then Fail(DuplicateName(name, st, before.types[name]))
    else Ok(if allowRef then Some(RefTo(prefix + name)) else before.schemas[name])
  }

  /** The answer for a named struct `st` (reached from `orig`) under `name`:
      either the name was taken, and the cached answer comes back with
      nothing changed, or it was free, and the struct is registered under it
      before the walk; then, with levels left, the name ends up holding what
      SchemaFromType returned for `orig` with a level less, what comes back
      is a ref to it or that very schema, and a panic is one of that walk. */
  ghost predicate AnswerNamed(
    e: Env, name: string, st: TypeId, orig: TypeId, d: nat, allowRef: bool,
    before: Snapshot, after: Snapshot, res: Result<Option<SchemaNode>>)
    requires EnvOk(e) && orig in e.u.types
  {
    match name in before.schemas
    case true =>
      && name in before.types && after == before
      && res == Cached(e.prefix, name, st, allowRef, before)
    case false =>
      && name in after.schemas && name in after.types && after.types[name] == st && st in after.seen
      && (d == 0 ==> res == Fail(StackExhausted))
      && (res.Ok? ==> res.value == if allowRef then Some(RefTo(e.prefix + name)) else after.schemas[name])
      && (d > 0 && res.Ok? ==> FromType(e, orig, d - 1, after.schemas[name]))
      && (d > 0 && res.Fail? ==> DeriveAbort(e, orig, d - 1, res.abort))
  }

  /** What SchemaFromType answers for `t` with `d` levels: a pure kind's
      node, finished, with nothing registered; otherwise a schema FromType
      describes, or a panic DeriveAbort describes. */
  ghost predicate Derives(
    e: Env, t: TypeId, d: nat,
    before: Snapshot, after: Snapshot, res: Result<Option<SchemaNode>>)
    requires EnvOk(e) && t in e.u.types
  {
    var st := Strip(e.u, t);
    ClosedAt(e.u, st);
    var c := Classify(e.u, e.hooks, st, e.u.types[t].kind == Pointer);
    && (c.Done? ==> res == Ok(Finish(e.u, e.hooks, st, c.node)) && after == before)
    && (res.Ok? ==> FromType(e, t, d, res.value))
    && (res.Fail? ==> DeriveAbort(e, t, d, res.abort))
  }

  /** After the walk of the struct registered under `name`: the name still
      holds the struct, a schema walked is the one stored under the name and
      one FromType describes, and a panic is one DeriveAbort describes, with
      a DuplicateName about a name the state holds. */
  ghost predicate StoredWalk(
    e: Env, name: string, st: TypeId, orig: TypeId, d: nat, after: Snapshot, walked: Result<Option<SchemaNode>>)
    requires EnvOk(e) && orig in e.u.types
  {
    && name in after.schemas && name in after.types && after.types[name] == st && st in after.seen
    && (walked.Ok? ==> after.schemas[name] == walked.value && FromType(e, orig, d, walked.value))
    && (walked.Fail? ==> DeriveAbort(e, orig, d, walked.abort) && DuplicateHeld(after, walked.abort))
  }

  /** A free name, once the struct is registered under it and walked with a
      level less, answers as AnswerNamed says: a ref when refs are allowed,
      otherwise the schema the walk stored, or the walk's panic. */
  lemma NamedWalk(
    e: Env, name: string, st: TypeId, orig: TypeId, d: nat, allowRef: bool,
    before: Snapshot, after: Snapshot, walked: Result<Option<SchemaNode>>, res: Result<Option<SchemaNode>>)
    requires EnvOk(e) && orig in e.u.types && d > 0 && name !in before.schemas
    requires StoredWalk(e, name, st, orig, d - 1, after, walked)
    requires res == if walked.Ok? && allowRef then Ok(Some(RefTo(e.prefix + name))) else walked
    ensures AnswerNamed(e, name, st, orig, d, allowRef, before, after, res)
    ensures res.Fail? ==> DuplicateHeld(after, res.abort)
  {
  }

  /** A free name, registered with no levels left: the stack is exhausted. */
  lemma NamedOutOfLevels(
    e: Env, name: string, st: TypeId, orig: TypeId, allowRef: bool, before: Snapshot, after: Snapshot)
    requires EnvOk(e) && orig in e.u.types && name !in before.schemas
    requires name in after.schemas && name in after.types && after.types[name] == st && st in after.seen
    ensures AnswerNamed(e, name, st, orig, 0, allowRef, before, after, Fail(StackExhausted))
  {
  }

  /** The answer for a type that is not named: out of levels, with nothing
      changed, or what SchemaFromType answers for `orig` a level down. */
  ghost predicate AnswerUnnamed(
    e: Env, orig: TypeId, d: nat,
    before: Snapshot, after: Snapshot, res: Result<Option<SchemaNode>>)
    requires EnvOk(e) && orig in e.u.types
  {
    if d == 0 then res == Fail(StackExhausted) && after == before
    else Derives(e, orig, d - 1, before, after, res)
  }

  /** With levels left, the answer for a type that is not named is what
      SchemaFromType answers a level down. */
  lemma UnnamedDeeper(
    e: Env, orig: TypeId, d: nat,
    before: Snapshot, after: Snapshot, res: Result<Option<SchemaNode>>)
    requires EnvOk(e) && orig in e.u.types && d > 0
    requires Derives(e, orig, d - 1, before, after, res)
    ensures AnswerUnnamed(e, orig, d, before, after, res)
  {
  }

  /** What Registry.Schema promises, read for a nested request: with refs
      allowed its answer is one Answers describes, and a panic is one
      RequestAbort describes. */
  lemma RequestOutcome(
    e: Env, t: TypeId, hint: string, d: nat, allowRef: bool,
    before: Snapshot, after: Snapshot, res: Result<Option<SchemaNode>>)
    requires EnvOk(e) && t in e.u.types
    requires Resolve(e.u, e.aliases, t, d).None? ==> res == Fail(StackExhausted)
    requires Resolve(e.u, e.aliases, t, d).Some? ==>
      Answer(e, Resolve(e.u, e.aliases, t, d).value.0, Resolve(e.u, e.aliases, t, d).value.1, allowRef, hint, before, after, res)
    ensures allowRef && res.Ok? ==> Answers(e, t, hint, d, res.value)
    ensures res.Fail? ==> RequestAbort(e, t, hint, d, res.abort)
  {
    match Resolve(e.u, e.aliases, t, d)
    case None =>
    case Some((tt, d')) =>
      var st := Strip(e.u, tt);
      var orig := Decayed(e.u, tt);
      if RefEligible(e.u, st) {
        NamedOutcome(e, e.namer(orig, hint), st, orig, d', allowRef, before, after, res);
      } else {
        UnnamedOutcome(e, orig, d', before, after, res);
      }
  }

  /** A named struct answers a ref to its name when refs are allowed, and
      panics only when out of levels, in its own walk, or when its name is
      already taken while the struct was never named: then the panic names
      the type the name holds, and nothing changes. */
  lemma NamedOutcome(
    e: Env, name: string, st: TypeId, orig: TypeId, d: nat, allowRef: bool,
    before: Snapshot, after: Snapshot, res: Result<Option<SchemaNode>>)
    requires EnvOk(e) && orig in e.u.types
    requires AnswerNamed(e, name, st, orig, d, allowRef, before, after, res)
    ensures allowRef && res.Ok? ==> res.value == Some(RefTo(e.prefix + name))
    ensures res.Fail? ==>
      || (d == 0 && res.abort == StackExhausted)
      || (&& name in before.types && st !in before.seen && after == before
          && res.abort == DuplicateName(name, st, before.types[name]))
      || (d > 0 && DeriveAbort(e, orig, d - 1, res.abort))
  {
    if name in before.schemas {
      assert res == Cached(e.prefix, name, st, allowRef, before);
    }
  }

  /** A type that is not named answers what SchemaFromType returns with a
      level less, and panics only when out of levels or in that walk. */
  lemma UnnamedOutcome(
    e: Env, orig: TypeId, d: nat,
    before: Snapshot, after: Snapshot, res: Result<Option<SchemaNode>>)
    requires EnvOk(e) && orig in e.u.types
    requires AnswerUnnamed(e, orig, d, before, after, res)
    ensures res.Ok? ==> d > 0 && FromType(e, orig, d - 1, res.value)
    ensures res.Fail? ==> (d == 0 && res.abort == StackExhausted) || (d > 0 && DeriveAbort(e, orig, d - 1, res.abort))
  {
  }

  /** The placeholder at work: once a struct is registered under a name, a
      request for it under that name (a nested one, during its own walk)
      answers with a ref, or the stored schema, and does not walk it again. */
  lemma {:induction false} RegisteredAnswersFromCache(
    u: Universe, s: Snapshot, aliases: map<TypeId, TypeId>, prefix: string, name: string, allowRef: bool)
    requires Consistent(u, s, aliases) && name in s.types
    ensures name in s.schemas
    ensures Cached(prefix, name, s.types[name], allowRef, s) ==
      Ok(if allowRef then Some(RefTo(prefix + name)) else s.schemas[name])
  {
    assert s.types[name] in s.types.Values;
  }

  /** Asking again for a named struct that was answered once changes nothing
      and answers the ref or the schema now stored under its name, which is
      what SchemaFromType returned for it the first time. */
  lemma {:induction false} RequestAgainIsCached(
    e: Env, name: string, st: TypeId, orig: TypeId,
    d: nat, allowRef: bool, s0: Snapshot, s1: Snapshot, res: Result<Option<SchemaNode>>,
    d': nat, allowRef': bool, s2: Snapshot, res': Result<Option<SchemaNode>>)
    requires EnvOk(e) && orig in e.u.types
    requires AnswerNamed(e, name, st, orig, d, allowRef, s0, s1, res) && res.Ok?
    requires AnswerNamed(e, name, st, orig, d', allowRef', s1, s2, res')
    ensures s2 == s1 && name in s1.schemas
    ensures res' == Ok(if allowRef' then Some(RefTo(e.prefix + name)) else s1.schemas[name])
    ensures name !in s0.schemas ==> d > 0 && FromType(e, orig, d - 1, s1.schemas[name])
  {
    if name in s0.schemas {
      assert s1 == s0 && st in s0.seen;
    }
  }

  /** The duplicate check asks whether the type was named before, not
      whether it is the type under this name: a type named under one name
      that the namer later maps to another type's name gets a ref to that
      other type's schema, and no panic. */
  lemma {:induction false} NameOfOtherSeenType(prefix: string, name: string, st: TypeId, s: Snapshot, allowRef: bool)
    requires name in s.schemas && name in s.types && s.types[name] != st && st in s.seen
    ensures Cached(prefix, name, st, allowRef, s).Ok?
    ensures allowRef ==> Cached(prefix, name, st, allowRef, s) == Ok(Some(RefTo(prefix + name)))
  {
  }
}
