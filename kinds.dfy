/** The non-recursive half of schemaFromType: what a type becomes when no
    element, value or field schema has to be asked of the registry, and, for
    sequences, maps and structs, which recursive case applies. */
module Kinds {
  import opened Types
  import opened Schemas

  predicate IsSigned(k: Kind) {
    k in {Int, Int8, Int16, Int32, Int64}
  }

  predicate IsUnsigned(k: Kind) {
    k in {Uint, Uint8, Uint16, Uint32, Uint64}
  }

  /** The width in bits of an integer kind; `int` and `uint` have the
      platform's width. */
  function Bits(k: Kind, uintSize: nat): nat
    requires IsSigned(k) || IsUnsigned(k)
  {
    match k
    case Int8 | Uint8 => 8
    case Int16 | Uint16 => 16
    case Int32 | Uint32 => 32
    case Int64 | Uint64 => 64
    case _ => uintSize
  }

  /** A node of the given JSON type and nullability, every other keyword unset. */
  function Scalar(j: JsonType, nullable: bool): SchemaNode {
    EMPTY.(typ := j, nullable := nullable)
  }

  /** An integer kind's node: the format by width, and `minimum: 0` for the
      unsigned kinds. */
  function IntegerNode(k: Kind, uintSize: nat, nullable: bool): (n: SchemaNode)
    requires (IsSigned(k) || IsUnsigned(k)) && (uintSize == 32 || uintSize == 64)
    ensures n.typ == TypeInteger && n.nullable == nullable
    ensures n.format == (if Bits(k, uintSize) <= 32 then "int32" else "int64")
    ensures n.minimum == (if IsUnsigned(k) then Some(0) else None)
    ensures n.contentEncoding == "" && n.items.None? && n.properties == map[]
  {
    var format := match k
      case Int | Uint => if uintSize == 32 then "int32" else "int64"
      case Int8 | Int16 | Int32 | Uint8 | Uint16 | Uint32 => "int32"
      case _ => "int64";
    var minimum := match k
      case Uint | Uint8 | Uint16 | Uint32 | Uint64 => Some(0)
      case _ => None;
    Scalar(TypeInteger, nullable).(format := format, minimum := minimum)
  }

  /** The array node for a sequence, given its element schema: nullable, and
      with `minItems == maxItems == n` for a fixed array of length n. */
  function SequenceNode(items: Option<SchemaNode>, bound: Option<nat>): SchemaNode {
    EMPTY.(typ := TypeArray, nullable := true, items := items, minItems := bound, maxItems := bound)
  }

  /** A map's node: an object whose additional properties follow the value schema. */
  function MapNode(values: Option<SchemaNode>): SchemaNode {
    EMPTY.(typ := TypeObject, additionalProperties := APSchema(values))
  }

  /** What the walker does with a type: finish at once (possibly with nil),
      or recurse into an element type, a map value type or the struct's fields. */
  datatype Dispatch =
    | Done(node: Option<SchemaNode>)
    | Sequence(elem: TypeId, bound: Option<nat>)
    | MapOf(elem: TypeId)
    | StructOf

  /** The type has none of the capabilities or identities that are looked at
      before the kind switch. */
  predicate Plain(d: TypeDesc) {
    !d.schemaProvider && d.wellKnown == Ordinary && !d.textUnmarshaler
  }

  /** schemaFromType up to the recursive cases, for the type `st` left once
      every pointer layer is removed; `isPointer` says whether the type handed
      over was a pointer, which only scalar results depend on. A provider, a
      well-known type and a text unmarshaler are settled before the kind is
      looked at. */
  function Classify(u: Universe, hooks: Hooks, st: TypeId, isPointer: bool): Dispatch
    requires st in u.types && Closed(u.types, u.types[st]) && (u.uintSize == 32 || u.uintSize == 64)
  {
    var d := u.types[st];
    if d.schemaProvider then Done(Some(hooks.provided(st)))
    else if d.wellKnown == TimeTime then Done(Some(Scalar(TypeString, isPointer).(format := "date-time")))
    else if d.wellKnown == UrlURL then Done(Some(Scalar(TypeString, isPointer).(format := "uri")))
    else if d.wellKnown == NetIP then Done(Some(Scalar(TypeString, isPointer).(format := "ipv4")))
    else if d.wellKnown == NetipAddr then Done(Some(Scalar(TypeString, isPointer).(format := "ipv4")))
    else if d.wellKnown == JsonRawMessage then Done(Some(EMPTY))
    else if d.textUnmarshaler then Done(Some(Scalar(TypeString, isPointer)))
    else KindSwitch(u, st, isPointer)
  }

  /** The switch on the kind of an ordinary type. */
  function KindSwitch(u: Universe, st: TypeId, isPointer: bool): Dispatch
    requires st in u.types && Closed(u.types, u.types[st]) && (u.uintSize == 32 || u.uintSize == 64)
  {
    var d := u.types[st];
    match d.kind
    case Bool => Done(Some(Scalar(TypeBoolean, isPointer)))
    case Int | Int8 | Int16 | Int32 | Int64 | Uint | Uint8 | Uint16 | Uint32 | Uint64 =>
      Done(Some(IntegerNode(d.kind, u.uintSize, isPointer)))
    case Float32 => Done(Some(Scalar(TypeNumber, isPointer).(format := "float")))
    case Float64 => Done(Some(Scalar(TypeNumber, isPointer).(format := "double")))
    case String => Done(Some(Scalar(TypeString, isPointer)))
    case Slice | Array =>
      if u.types[d.elem].kind == Uint8 then
        Done(Some(Scalar(TypeString, isPointer).(contentEncoding := "base64")))
      else Sequence(d.elem, if d.kind == Array then Some(d.len) else None)
    case Map => MapOf(d.elem)
    case Struct => StructOf
    case Interface => Done(Some(EMPTY))
    case _ => Done(None)
  }

  /** What Classify promises: a provider's schema is taken as it is, every
      other scalar is nullable exactly when the type was a pointer, only a
      plain type reaches the kind switch, and a type that is not plain is
      always settled with a schema. */
  lemma ClassifySpec(u: Universe, hooks: Hooks, st: TypeId, isPointer: bool)
    requires st in u.types && Closed(u.types, u.types[st]) && (u.uintSize == 32 || u.uintSize == 64)
    ensures var r := Classify(u, hooks, st, isPointer);
      && (u.types[st].schemaProvider ==> r == Done(Some(hooks.provided(st))))
      && (!u.types[st].schemaProvider && r.Done? && r.node.Some? && IsScalar(r.node.value.typ) ==>
            r.node.value.nullable == isPointer)
      && (Plain(u.types[st]) ==> r == KindSwitch(u, st, isPointer))
      && (!Plain(u.types[st]) ==> r.Done? && r.node.Some?)
  {
    KindSwitchSpec(u, st, isPointer);
  }

  /** What the kind switch promises, kind by kind. */
  lemma KindSwitchSpec(u: Universe, st: TypeId, isPointer: bool)
    requires st in u.types && Closed(u.types, u.types[st]) && (u.uintSize == 32 || u.uintSize == 64)
    ensures var r := KindSwitch(u, st, isPointer); var d := u.types[st];
      // Scalars are nullable exactly when the type was a pointer.
      && (r.Done? && r.node.Some? && IsScalar(r.node.value.typ) ==> r.node.value.nullable == isPointer)
      // Integer kinds: the format by width, minimum 0 exactly for the unsigned ones.
      && (IsSigned(d.kind) || IsUnsigned(d.kind) ==>
            && r.Done? && r.node.Some? && r.node.value.typ == TypeInteger
            && r.node.value.format == (if Bits(d.kind, u.uintSize) <= 32 then "int32" else "int64")
            && (r.node.value.minimum == Some(0) <==> IsUnsigned(d.kind))
            && (r.node.value.minimum.None? <==> IsSigned(d.kind)))
      // A slice or array of bytes is a base64 string and never an array.
      && (d.kind in {Slice, Array} && u.types[d.elem].kind == Uint8 ==>
            r.Done? && r.node.Some? && r.node.value.typ == TypeString && r.node.value.contentEncoding == "base64")
      // Any other sequence recurses into its element, with exact bounds for an array only.
      && (r.Sequence? <==> d.kind in {Slice, Array} && u.types[d.elem].kind != Uint8)
      && (r.Sequence? ==>
            && r.elem == d.elem
            && (r.bound == Some(d.len) <==> d.kind == Array)
            && (r.bound.None? <==> d.kind == Slice))
      && (r.MapOf? <==> d.kind == Map)
      && (r.MapOf? ==> r.elem == d.elem)
      && (r.StructOf? <==> d.kind == Struct)
  {
  }

  /** Only the kinds the switch does not list yield nil. */
  lemma NilKinds(u: Universe, hooks: Hooks, st: TypeId, isPointer: bool)
    requires st in u.types && Closed(u.types, u.types[st]) && (u.uintSize == 32 || u.uintSize == 64)
    ensures Classify(u, hooks, st, isPointer) == Done(None) <==>
      Plain(u.types[st]) && u.types[st].kind in {Invalid, Uintptr, Complex64, Complex128, Chan, Func, UnsafePointer, Pointer}
  {
    ClassifySpec(u, hooks, st, isPointer);
    KindSwitchSpec(u, st, isPointer);
  }

  /** The well-known standard-library types are strings with a format (or,
      for json.RawMessage, anything), whatever their kind. */
  lemma WellKnownFormats(u: Universe, hooks: Hooks, st: TypeId, isPointer: bool)
    requires st in u.types && Closed(u.types, u.types[st]) && (u.uintSize == 32 || u.uintSize == 64)
    requires !u.types[st].schemaProvider && u.types[st].wellKnown != Ordinary
    ensures var w := u.types[st].wellKnown; var r := Classify(u, hooks, st, isPointer);
      && r.Done? && r.node.Some?
      && (w == JsonRawMessage ==> r.node.value == EMPTY)
      && (w != JsonRawMessage ==> r.node.value.typ == TypeString)
      && (w == TimeTime ==> r.node.value.format == "date-time")
      && (w == UrlURL ==> r.node.value.format == "uri")
      && (w in {NetIP, NetipAddr} ==> r.node.value.format == "ipv4")
  {
  }

  /** A sequence node has exact bounds precisely for a fixed array, no bounds
      for a slice, and is always nullable. */
  lemma SequenceBounds(items: Option<SchemaNode>, bound: Option<nat>)
    ensures var n := SequenceNode(items, bound);
      && n.typ == TypeArray && n.nullable && n.items == items
      && n.minItems == n.maxItems == bound
  {
  }
}
