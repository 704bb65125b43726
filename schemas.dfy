/** The derived artifact (a huma.Schema node), the ways derivation aborts,
    and the user-supplied interface methods the engine calls. */
module Schemas {
  import opened Types

  /** huma.TypeBoolean, huma.TypeInteger, ...; NoType is the unset "" type. */
  datatype JsonType =
    NoType | TypeBoolean | TypeInteger | TypeNumber | TypeString | TypeArray | TypeObject

  /** The types whose nullability follows the pointer-ness of the Go type. */
  predicate IsScalar(j: JsonType) {
    j in {TypeBoolean, TypeInteger, TypeNumber, TypeString}
  }

  /** The `additionalProperties` keyword: unset, a boolean, or a schema (which
      itself may be nil) for the values of an open map. */
  datatype AdditionalProperties =
    | APUnset
    | APBool(allowed: bool)
    | APSchema(values: Option<SchemaNode>)

  /** One schema node. `minimum` is an optional integer because the only bound
      the engine ever writes is 0. */
  datatype SchemaNode = SchemaNode(
    typ: JsonType,
    nullable: bool,
    format: string,
    contentEncoding: string,
    minimum: Option<int>,
    items: Option<SchemaNode>,
    minItems: Option<nat>,
    maxItems: Option<nat>,
    properties: map<string, SchemaNode>,
    required: seq<string>,
    additionalProperties: AdditionalProperties,
    dependentRequired: map<string, seq<string>>,
    oneOf: seq<SchemaNode>,
    ref: string)

  /** &huma.Schema{}: the node that accepts anything. */
  const EMPTY: SchemaNode :=
    SchemaNode(NoType, false, "", "", None, None, None, None, map[], [], APUnset, map[], [], "")

  /** A reference node pointing at a named registry entry. */
  function RefTo(ref: string): SchemaNode {
    EMPTY.(ref := ref)
  }

  /** One violation found by the dependent-required check. */
  datatype MissingDependent = MissingDependent(dependent: string, field: string)

  /** Why a derivation stopped: the Go code panics (or overflows its stack). */
  datatype Abort =
    | DuplicateName(name: string, newType: TypeId, existingType: TypeId)
    | InvalidBoolTag(tag: string, field: string, value: string)
    | MissingDependents(missing: seq<MissingDependent>)
    | ProtobufNameNoMatch(field: string, tag: string)
    | RefTooShort(ref: string)
    | StackExhausted

  datatype Result<T> = Ok(value: T) | Fail(abort: Abort) {
    predicate IsFailure() {
      Fail?
    }

    function PropagateFailure<U>(): Result<U>
      requires Fail?
    {
      Fail(abort)
    }

    function Extract(): T
      requires Ok?
    {
      value
    }
  }

  /** What user types do when the engine calls their interface methods:
      SchemaProvider.Schema for a type, and SchemaTransformer.TransformSchema
      applied to the derived (possibly nil) node. */
  datatype Hooks = Hooks(
    provided: TypeId -> SchemaNode,
    transform: (TypeId, Option<SchemaNode>) -> Option<SchemaNode>)
}
