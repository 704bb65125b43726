/** The part of Go's reflection the schema engine looks at, as explicit data.

    A program's types form a finite table from type identities to descriptors.
    A descriptor carries the kind, the element type of pointers, slices, arrays
    and maps, the length of arrays, the struct fields with their tags, the method
    set (name, number of results, first result type) and the handful of
    interface capabilities the engine tests with type assertions. */
module Types {

  /** A reflect.Type, as a key of the program's type table. */
  type TypeId = nat

  datatype Option<T> = None | Some(value: T)

  /** reflect.Kind. */
  datatype Kind =
    | Invalid | Bool
    | Int | Int8 | Int16 | Int32 | Int64
    | Uint | Uint8 | Uint16 | Uint32 | Uint64 | Uintptr
    | Float32 | Float64 | Complex64 | Complex128
    | Array | Chan | Func | Interface | Map | Pointer | Slice | String | Struct
    | UnsafePointer

  /** The standard-library types that the walker recognises by identity. */
  datatype WellKnown = Ordinary | TimeTime | UrlURL | NetIP | NetipAddr | JsonRawMessage

  /** A struct tag, already split into its key:"value" pairs. */
  type Tag = map<string, string>

  /** reflect.StructTag.Get: the value, or "" when the key is absent. */
  function TagGet(tag: Tag, key: string): string {
    if key in tag then tag[key] else ""
  }

  /** reflect.StructField. */
  datatype Field = Field(name: string, typ: TypeId, tag: Tag, anonymous: bool, exported: bool)

  /** reflect.Method: its name, how many results it returns, and the type of the first. */
  datatype Method = Method(name: string, numOut: nat, out0: TypeId)

  /** The descriptor of one type. The capability flags say whether a value of
      the pointer type *T satisfies huma.SchemaProvider, encoding.TextUnmarshaler
      and huma.SchemaTransformer; `methods` is the method set of this very type
      (a pointer type has its own, larger, method set). */
  datatype TypeDesc = TypeDesc(
    name: string,
    kind: Kind,
    elem: TypeId,
    len: nat,
    fields: seq<Field>,
    methods: seq<Method>,
    schemaProvider: bool,
    textUnmarshaler: bool,
    schemaTransformer: bool,
    wellKnown: WellKnown)

  /** The program's types, and the platform's bits.UintSize. */
  datatype Universe = Universe(types: map<TypeId, TypeDesc>, uintSize: nat)

  /** The types of the given fields are all in the table. */
  ghost predicate FieldTypesIn(fs: seq<Field>, ts: map<TypeId, TypeDesc>) {
    forall i :: 0 <= i < |fs| ==> fs[i].typ in ts
  }

  /** Every type a descriptor mentions is itself in the table. */
  ghost predicate Closed(ts: map<TypeId, TypeDesc>, d: TypeDesc) {
    && d.elem in ts
    && FieldTypesIn(d.fields, ts)
    && (forall i :: 0 <= i < |d.methods| ==> d.methods[i].out0 in ts)
  }

  /** Following Elem() from `t` reaches a non-pointer type within `n` steps. */
  ghost predicate EndsWithin(ts: map<TypeId, TypeDesc>, t: TypeId, n: nat)
    decreases n
  {
    t in ts && (ts[t].kind == Pointer ==> n > 0 && EndsWithin(ts, ts[t].elem, n - 1))
  }

  /** A well-formed universe: a 32- or 64-bit platform, a closed type table, and
      no pointer type that is (through pointers only) its own element. */
  ghost predicate WF(u: Universe) {
    && (u.uintSize == 32 || u.uintSize == 64)
    && (forall t {:trigger Closed(u.types, u.types[t])} :: t in u.types ==> Closed(u.types, u.types[t]))
    && (forall t {:trigger EndsWithin(u.types, t, |u.types|)} :: t in u.types ==> EndsWithin(u.types, t, |u.types|))
  }

  /** What well-formedness says about one type of the table. */
  lemma ClosedAt(u: Universe, t: TypeId)
    requires WF(u) && t in u.types
    ensures Closed(u.types, u.types[t])
  {
  }

  function StripFrom(ts: map<TypeId, TypeDesc>, t: TypeId, n: nat): (r: TypeId)
    requires EndsWithin(ts, t, n)
    ensures r in ts && ts[r].kind != Pointer
    ensures ts[t].kind != Pointer ==> r == t
    decreases n
  {
    if ts[t].kind == Pointer then StripFrom(ts, ts[t].elem, n - 1) else t
  }

  /** The type with every pointer layer removed. */
  function Strip(u: Universe, t: TypeId): (r: TypeId)
    requires WF(u) && t in u.types
    ensures r in u.types && u.types[r].kind != Pointer
  {
    StripFrom(u.types, t, |u.types|)
  }

  /** Stripping is the identity on non-pointers and removes one layer at a time:
      a pointer strips to what its element strips to. */
  lemma {:induction false} StripStep(u: Universe, t: TypeId)
    requires WF(u) && t in u.types
    ensures u.types[t].kind != Pointer ==> Strip(u, t) == t
    ensures u.types[t].elem in u.types
    ensures u.types[t].kind == Pointer ==> Strip(u, t) == Strip(u, u.types[t].elem)
  {
    ClosedAt(u, t);
    if u.types[t].kind == Pointer {
      assert EndsWithin(u.types, t, |u.types|);
      assert EndsWithin(u.types, u.types[t].elem, |u.types|);
      StripFromAnyBound(u.types, u.types[t].elem, |u.types| - 1, |u.types|);
    }
  }

  /** The result of stripping does not depend on the bound used. */
  lemma {:induction false} StripFromAnyBound(ts: map<TypeId, TypeDesc>, t: TypeId, m: nat, n: nat)
    requires EndsWithin(ts, t, m) && EndsWithin(ts, t, n)
    ensures StripFrom(ts, t, m) == StripFrom(ts, t, n)
    decreases m
  {
    if ts[t].kind == Pointer {
      StripFromAnyBound(ts, ts[t].elem, m - 1, n - 1);
    }
  }

  /** Stripping twice is stripping once. */
  lemma StripIdempotent(u: Universe, t: TypeId)
    requires WF(u) && t in u.types
    ensures Strip(u, Strip(u, t)) == Strip(u, t)
  {
    StripStep(u, Strip(u, t));
  }

  /** The type the registry names and derives: the original type, except that a
      pointer to an array or slice decays to the array or slice itself. */
  function Decayed(u: Universe, t: TypeId): (r: TypeId)
    requires WF(u) && t in u.types
    ensures r in u.types
    ensures u.types[Strip(u, t)].kind in {Array, Slice} ==> r == Strip(u, t) && u.types[r].kind != Pointer
    ensures u.types[Strip(u, t)].kind !in {Array, Slice} ==> r == t
  {
    var s := Strip(u, t);
    if u.types[s].kind == Array || u.types[s].kind == Slice then s else t
  }

  /** deref: follow Elem() while the kind is Pointer. */
  method Deref(u: Universe, t: TypeId) returns (r: TypeId)
    requires WF(u) && t in u.types
    ensures r == Strip(u, t)
  {
    r := t;
    ghost var n: nat := |u.types|;
    while u.types[r].kind == Pointer
      invariant EndsWithin(u.types, r, n)
      invariant StripFrom(u.types, r, n) == Strip(u, t)
      decreases n
    {
      r := u.types[r].elem;
      n := n - 1;
    }
  }
}
