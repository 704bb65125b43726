# humaproto schema registry, modelled in Dafny

The package `humaproto` turns Go types into OpenAPI schemas for huma, with the
protobuf/protojson conventions:

- protobuf tag names win over json tag names;
- 64-bit integers with a protobuf tag are strings;
- oneof groups become `oneOf` alternatives.

This project models its two core pieces.

- **The registry** (`protoJSONHumaRegistry`). It keeps three maps: the schema under each name, the type under each name, and the set of named types. It also keeps a table of type aliases. A request `Schema(t, allowRef, hint)` goes through these steps:
  - it follows aliases;
  - it decides whether the type gets a name (only plain structs do);
  - it answers a name already taken from the cache, or panics when the type was never named;
  - otherwise it registers an empty placeholder *before* walking the type, so a nested request for the same struct ends in a `$ref`;
  - finally it stores the walked schema and returns a ref or the schema.
- **The walker** (`SchemaFromType` / `schemaFromType`). It covers:
  - schema providers, the well-known standard-library types, text unmarshalers;
  - the kind switch: integer formats by width, `minimum: 0` for unsigned kinds, base64 byte slices, array bounds, maps;
  - pointer nullability of scalars;
  - the struct case: `getFields`' field list (each struct's own fields, then each embedded struct's whole list in turn), shadowing by Go name, the tag rules (`protobuf` > `json` > Go name, `-`, `required`, `hidden`, `dependentRequired`), oneof alternatives from `Get` methods, the protojson and omitempty adjustments of property schemas, the dependent-required check with its sorted, aggregated panic, and the `additionalProperties`/`nullable` defaults read off the blank `_` field.

How Go's machinery is represented:

- Reflection becomes data. A `Universe` maps type identities to descriptors: kind, element, length, fields with their parsed tags, method set, interface capabilities, and well-known identity.
- A panic becomes `Fail(Abort)` in a `Result`.
- The goroutine stack becomes a `depth` argument. Each request that walks a type or follows an alias costs one level, and running out gives `StackExhausted`. That is what Go does on an alias cycle or an endlessly nested unnamed type.
- The registry is a `class` whose methods update its maps.
- The field loop, the oneof loop, `getFields` and the dependent check are methods with loops. Each is proved against a pure specification: `Plan`/`Assemble`/`Close`, `Alts`, `AllFields` and `MissingAlong`.

Modules:

- `Types`: the reflection stand-in, `deref`.
- `Schemas`: schema nodes, aborts.
- `GoStrings`: `strings.*`, `sort.Strings`.
- `Tags`: `boolTag`, tag precedence, the protobuf name expression, `getName`.
- `Fields`: `getFields`.
- `Kinds`: the non-recursive cases.
- `Dependents`: the dependent-required check.
- `Structs`: the struct case as a specification.
- `StructFacts`: what the struct case promises.
- `RegistryState`: the registry's state and answers as values.
- `HumaProto`: the registry class and the walker methods.

Some behaviours of the code differ from what its comments or the rest of its design suggest. The model follows the code:

- With oneof alternatives, the code leaves `additionalProperties` unset rather than setting it to `false` (schema_from_type.go:285).
- The duplicate-name panic fires when the requested type was never named, not when the name holds a different type (registry.go:89). A type already named elsewhere therefore gets a ref to another type's schema; `RegistryState.NameOfOtherSeenType` states it.
- `TypeFromRef` does not check the prefix. It cuts the ref after `len(prefix)` bytes, and it panics on a ref with fewer bytes than the prefix (registry.go:126). Go's lengths and slices count UTF-8 bytes, so the model measures strings with `ByteLen` and cuts at `CharOffset`. A cut that falls inside a character leaves text that is not valid UTF-8, and no registered name is such text. `HumaProto.Registry.RefPrefixAsymmetry` states the missing prefix check.
- `SchemaFromRef` uses `strings.HasPrefix` and cuts after the prefix's bytes. On valid UTF-8 a byte prefix is a character prefix, so the model compares and cuts by characters there.
- The comment on `getFields` (schema_from_type.go:342-344) calls it breadth-first, but the code is depth-first. It lists a struct's own fields, then the whole list of each embedded struct in turn, including that struct's own embedded structs, before starting the next. For `Outer{A; B}`, `A{X; C}`, `C{W}` and `B{W}` the order is X, then C's W, then B's W. So the deeper `W` comes first and shadows the shallower one. `Fields.AllFields` has the code's order.

## Model

| member | source | states |
|---|---|---|
| HumaProto.Registry.constructor | humaproto/registry.go:17-27 | a new registry is consistent, with empty schema, type, seen and alias maps |
| Types.Deref | humaproto/registry.go:47-52 | the loop ends at the pointer-free type `Strip(t)`, which terminates for every well-formed type table |
| Types.StripStep | humaproto/registry.go:47-52 | stripping is the identity on non-pointers and removes one pointer layer at a time |
| Types.StripIdempotent | humaproto/registry.go:47-52 | stripping twice is stripping once |
| Types.Decayed | humaproto/registry.go:55-61 | a pointer to an array or slice decays to the array or slice; any other type is kept as it is |
| HumaProto.Registry.Schema | humaproto/registry.go:54-116 | only inserts (`Extended`), keeps the registry consistent; an alias chain longer than the levels left fails with StackExhausted and changes nothing; otherwise the answer is `Answer` for the type the aliases lead to: a named struct is answered through its name (`AnswerNamed`), any other type by deriving it a level down (`Derives`: a schema `FromType` describes, or a panic `DeriveAbort` describes); a DuplicateName panic names a name the registry then holds, the type under it, and a type it has not named (`DuplicateHeld`) |
| HumaProto.Registry.SchemaAliased | humaproto/registry.go:63-66 | a type with an alias spends one level and is answered as `Answer` for the end of the alias chain; a DuplicateName panic names a name the registry then holds, the type under it, and a type it has not named (`DuplicateHeld`) |
| HumaProto.Registry.ResolveAlias | humaproto/registry.go:63-66 | an aliased type is answered exactly as its alias, one level deeper; with no level left it fails |
| RegistryState.Resolve | humaproto/registry.go:63-66 | a type whose pointer-free form has no alias resolves to itself; any resolved type has no alias |
| HumaProto.Registry.SchemaUnaliased | humaproto/registry.go:55-115 | without an alias: a ref-eligible struct is answered through its name (`AnswerNamed`), anything else by deriving it (`AnswerUnnamed`); a DuplicateName panic names a name the registry then holds, the type under it, and a type it has not named (`DuplicateHeld`) |
| HumaProto.Registry.AnswerHere | humaproto/registry.go:68-87 | the named/unnamed split is decided by ref eligibility of the pointer-free type, and the name comes from the decayed type and the hint |
| HumaProto.Registry.NamedSchema | humaproto/registry.go:87-115 | a taken name gives the cached answer with the state unchanged; a free name ends up registered to the type; a DuplicateName panic names a name the registry then holds, the type under it, and a type it has not named (`DuplicateHeld`) |
| HumaProto.Registry.CachedSchema | humaproto/registry.go:88-98 | a name held by a never-named type panics with DuplicateName; otherwise the ref `prefix+name` or the stored schema |
| HumaProto.Registry.RegisterAndWalk | humaproto/registry.go:101-115 | the struct is registered under the name before the walk and stays so; with no level left it fails with StackExhausted; on success the name holds a schema `FromType` describes for the type and the result is the ref `prefix+name` or exactly that schema; a panic is one of the walk of the type (`DeriveAbort`); a DuplicateName panic names a name the registry then holds, the type under it, and a type it has not named (`DuplicateHeld`) |
| HumaProto.Registry.WalkAndRefer | humaproto/registry.go:106-115 | with a level left, the walk of the struct just registered answers as `AnswerNamed` says for a free name: the ref `prefix+name` when refs are allowed, else the schema stored under the name; a DuplicateName panic names a name the registry then holds, the type under it, and a type it has not named (`DuplicateHeld`) |
| HumaProto.Registry.WalkRegistered | humaproto/registry.go:106-109 | the walk of a registered struct only extends the registry and keeps the name on the struct (`StoredWalk`); on success the walked schema is the one stored under the name, and `FromType` describes it in terms of the registry's answers to the walk's nested requests; a panic is one `DeriveAbort` describes; a DuplicateName panic names a name the registry then holds, the type under it, and a type it has not named (`DuplicateHeld`) |
| HumaProto.Registry.UnnamedSchema | humaproto/registry.go:106-115 | with no level left it fails with StackExhausted and changes nothing; otherwise the answer is `Derives` a level down: a type settled without nested requests gives its finished node and leaves the registry unchanged, a success satisfies `FromType`, a panic `DeriveAbort`; a DuplicateName panic names a name the registry then holds, the type under it, and a type it has not named (`DuplicateHeld`) |
| HumaProto.Registry.Register | humaproto/registry.go:102-106 | registration adds the placeholder, the type and the seen mark, keeping the registry consistent |
| HumaProto.Registry.Store | humaproto/registry.go:108-110 | storing replaces only the schema under the name |
| RegistryState.ConsistentRegister | humaproto/registry.go:102-106 | registering a ref-eligible struct under a new name keeps `seen` equal to the named types |
| RegistryState.RegisteredAnswersFromCache | humaproto/registry.go:88-98 | once registered (the placeholder), a request under that name answers the ref or the stored schema without walking again |
| RegistryState.RequestAgainIsCached | humaproto/registry.go:88-98 | a second request for a named struct that was answered once changes nothing and returns the same ref, or the schema stored under the name, which (when the first request registered it) is what `FromType` describes for the struct a level down |
| RegistryState.RequestOutcome | humaproto/registry.go:54-116 | a nested request with refs allowed answers what `Answers` describes: the ref to the name of a named struct, otherwise a schema `FromType` describes a level down; every panic is one `RequestAbort` describes: out of levels, DuplicateName for the name the namer gives the named struct reached and that struct, or a panic in the walk of the type reached |
| RegistryState.NamedOutcome | humaproto/registry.go:87-115 | a named struct answers the ref to its name when refs are allowed, and panics only when out of levels, in its own walk, or, when the name is taken and the struct never named, with DuplicateName for the name, the struct and the type the name holds, changing nothing |
| RegistryState.UnnamedOutcome | humaproto/registry.go:106-115 | an unnamed type's success is what `FromType` describes a level down; it panics only when out of levels or in that walk |
| RegistryState.FromTypeCases | humaproto/schema_from_type.go:19-29 | without a transformer, what SchemaFromType returns is exactly a derived node; with one, it is the transformer's answer for some derived node |
| RegistryState.NameOfOtherSeenType | humaproto/registry.go:88-97 | the duplicate check passes for any type named before, even one named under another name |
| RegistryState.ExtendedTrans | humaproto/registry.go:54-116 | "only inserts" composes over successive requests |
| HumaProto.Registry.SchemaFromRef | humaproto/registry.go:118-123 | a ref without the prefix gives nil; a schema found is the one stored under the name after the prefix |
| HumaProto.Registry.TypeFromRef | humaproto/registry.go:125-127 | panics exactly when the ref has fewer UTF-8 bytes than the prefix; otherwise the answer is the type stored under the text after the first len(prefix) bytes, or nil when that cut falls inside a character |
| HumaProto.Registry.RefRoundTrip | humaproto/registry.go:112-127 | the ref built for a name leads back to that name's schema and type |
| HumaProto.Registry.RefPrefixAsymmetry | humaproto/registry.go:118-127 | replacing the prefix of a ref by other text of the same byte length leaves TypeFromRef unchanged but makes SchemaFromRef nil |
| HumaProto.Registry.Map | humaproto/registry.go:129-131 | the map's names are exactly the registered names, each of a ref-eligible struct, and each maps to the schema stored under it |
| HumaProto.Registry.RegisterTypeAlias | humaproto/registry.go:141-144 | only the alias table changes, by the one entry |
| HumaProto.SchemaFromType | humaproto/schema_from_type.go:19-29 | only inserts; `Derives`: a node `Derived` for the type, rewritten by its transformer if it has one (`FromType`); a type settled without nested requests gives the settled node and leaves the registry unchanged; a panic is one `DeriveAbort` describes; a DuplicateName panic names a name the registry then holds, the type under it, and a type it has not named (`DuplicateHeld`) |
| HumaProto.DeriveSchema | humaproto/schema_from_type.go:33-320 | the result satisfies `Derived`: settled types give Classify's node; a sequence gives an array node with Classify's bounds whose items are the registry's answer for the element (`Answers` with hint `<name>Item`); a map gives an object whose additionalProperties is the answer for the value type (hint `<name>Value`); a struct gives exactly `StructOutcome` of the registry's answers to its fields' requests (`SubsAnswered`); a panic is a nested request's or the struct case's (`DeriveAbort`); a DuplicateName panic names a name the registry then holds, the type under it, and a type it has not named (`DuplicateHeld`) |
| Kinds.ClassifySpec | humaproto/schema_from_type.go:41-69 | a provider's schema is taken as it is; every other scalar is nullable exactly when the type was a pointer; only a plain type reaches the kind switch |
| Kinds.WellKnownFormats | humaproto/schema_from_type.go:49-61 | time.Time, url.URL, net.IP and netip.Addr are strings with formats date-time, uri, ipv4, ipv4; json.RawMessage is the empty schema |
| Kinds.KindSwitchSpec | humaproto/schema_from_type.go:71-132 | integer format by width and minimum 0 exactly for unsigned kinds; byte slices and arrays are base64 strings; other sequences recurse with exact bounds for arrays only; maps and structs recurse |
| Kinds.IntegerNode | humaproto/schema_from_type.go:75-105 | `int32` for widths up to 32 bits (`int`/`uint` follow the platform), `int64` otherwise; minimum 0 exactly for unsigned kinds |
| Kinds.NilKinds | humaproto/schema_from_type.go:306-310 | nil exactly for a plain type of a kind the switch does not list |
| Kinds.SequenceBounds | humaproto/schema_from_type.go:119-128 | a sequence node is a nullable array with minItems == maxItems == the bound |
| Tags.BoolTag | humaproto/schema_from_type.go:322-333 | "true" and "false" read as such, an empty or absent tag is false, anything else panics with InvalidBoolTag |
| Tags.BoolTagRoundTrip | humaproto/schema_from_type.go:322-333 | a tag written from a boolean reads back as that boolean |
| Tags.LookupBoolTag | humaproto/schema_from_type.go:228-230 | a boolean tag consulted only when the key is present |
| Tags.ProtobufName | humaproto/schema_from_type.go:31 | the submatch of `^.*name\=([a-zA-Z0-9]+)\,.*$`: none on a newline or no `name=…,` occurrence; otherwise the rightmost occurrence's non-empty alphanumeric name |
| Tags.LastNameAt | humaproto/schema_from_type.go:31 | the rightmost position before the bound where `name=<alnum>+,` matches |
| Tags.WireName | humaproto/schema_from_type.go:207-222 | a protobuf tag's name wins, and a oneof protobuf field starts optional; otherwise the json tag's first element wins and omitempty makes the field optional; otherwise the Go name, required; an unmatched protobuf tag panics |
| Tags.ProtobufTagWins | humaproto/schema_from_type.go:210-222 | once a protobuf tag is present the json tag plays no part |
| Tags.ParseField | humaproto/schema_from_type.go:207-240 | "-" ignores the field; the `required` tag overrides, and a malformed one panics; hidden skips, and a malformed one panics; a non-blank `dependentRequired` is split into comma-free names that join back to the tag |
| Tags.ParseFieldOutcome | humaproto/schema_from_type.go:207-240 | parsing fails exactly when the name fails or, for a field not named "-", a present `required` tag or the `hidden` tag is malformed; a well-formed `hidden:"true"` makes the field Hidden |
| Tags.GetName | humaproto/schema_from_type.go:175-187 | drops "Get" and lower-cases the first letter of what remains, keeping the rest |
| Tags.GetNameInjective | humaproto/schema_from_type.go:175-187 | two accessors with capitalised suffixes collide only when they are the same accessor |
| Tags.GetNameCollision | humaproto/schema_from_type.go:175-187 | for every capitalised suffix, the accessor with its first letter lower-cased gives the same property name |
| Fields.Partition | humaproto/schema_from_type.go:354-366 | the first loop yields the exported direct fields and the exported embedded ones, in order |
| Fields.GetFields | humaproto/schema_from_type.go:345-379 | the method computes `AllFields`, the depth-first reference definition with the shared visited set |
| Fields.AllFieldsShape | humaproto/schema_from_type.go:345-379 | a visited type gives nothing; otherwise its own direct fields come first, and every field listed is exported, not embedded, declared by a struct newly visited |
| Fields.AllFieldTypesKnown | humaproto/schema_from_type.go:345-379 | every field listed has a type of the table |
| HumaProto.StructSchema | humaproto/schema_from_type.go:133-305 | when every nested request was answered, `subs` are those answers field by field (`SubsAnswered`) and the result is `StructOutcome(c, subs)`; a panic is the field loop's (`WalkAbort`) or, once every field's requests were answered, that of `StructOutcome` of those answers: missing dependents or a malformed `_` field (`StructAbort`); a DuplicateName panic names a name the registry then holds, the type under it, and a type it has not named (`DuplicateHeld`) |
| HumaProto.WalkFields | humaproto/schema_from_type.go:142-262 | the field loop computes `Walked(c, subs)`: the plan of actions folded with `subs`, which are the registry's answers field by field (`SubsAnswered`); a panic is that of the first field that fails: every earlier field's tags parse and its requests were answered, and that field's tags are malformed or one of its requests panics (`WalkAbort`); a DuplicateName panic names a name the registry then holds, the type under it, and a type it has not named (`DuplicateHeld`) |
| HumaProto.FieldStep | humaproto/schema_from_type.go:146-261 | one field's effect on the accumulators is `Apply` of its action with the answers of that field's nested requests (`FieldAnswered`); a panic is one of those requests' (`FieldAbort`); a DuplicateName panic names a name the registry then holds, the type under it, and a type it has not named (`DuplicateHeld`) |
| HumaProto.WalkField | humaproto/schema_from_type.go:146-261 | one turn of the field loop: on success the field's action is `ActionOf` and its effect `Apply` with the field's answers (`FieldAnswered`); with the earlier fields answered, a panic is one `WalkAbort` describes; a DuplicateName panic names a name the registry then holds, the type under it, and a type it has not named (`DuplicateHeld`) |
| Structs.FieldAction | humaproto/schema_from_type.go:146-236 | the loop's decision for a field is `ActionOf` (shadowed, oneof, or its tags) |
| Structs.TagPanics | humaproto/schema_from_type.go:207-236 | a field's tags panic only as boolTag (InvalidBoolTag) or the protobuf name expression (ProtobufNameNoMatch) does |
| HumaProto.AddProperty | humaproto/schema_from_type.go:238-260 | dependents recorded; the one nested answer is the registry's answer for the field's type with hint `<struct><field>Struct` (`Answers`), stored adjusted (int64+protobuf is a string, omitempty pointer not nullable) when not nil; required noted; a panic is that request's (`RequestAbort`); a DuplicateName panic names a name the registry then holds, the type under it, and a type it has not named (`DuplicateHeld`) |
| HumaProto.SchemaFromField | humaproto/schema_from_type.go:242 | the answer is `Answers` for the field's type and hint (a field of named-struct type gets the ref to its name); a panic is one `RequestAbort` describes; a DuplicateName panic names a name the registry then holds, the type under it, and a type it has not named (`DuplicateHeld`) |
| HumaProto.OneOfAlternatives | humaproto/schema_from_type.go:152-200 | the method loop computes `Alts` over answers that are, method by method, the registry's answers for each eligible method's result type with hint `<struct><type>Struct` (`AltsAnswered`); a panic is that of the first method whose request panics, every earlier one answered (`AltsAnswered`, `AltAbort`); a DuplicateName panic names a name the registry then holds, the type under it, and a type it has not named (`DuplicateHeld`) |
| HumaProto.AltSchema | humaproto/schema_from_type.go:168-173 | one eligible method's request: its answer is `AltAnswered`, its panic `AltAbort`; a DuplicateName panic names a name the registry then holds, the type under it, and a type it has not named (`DuplicateHeld`) |
| Structs.CloseObject | humaproto/schema_from_type.go:263-305 | the end of the struct case computes `Close`: the sorted dependent check, then the defaults |
| Structs.CloseFails | humaproto/schema_from_type.go:263-298 | closing panics only with missing dependents or the `_` field's malformed tag |
| Structs.PlanSticks | humaproto/schema_from_type.go:143-240 | a panic in a field ends the walk, whatever follows |
| StructFacts.PlanActions | humaproto/schema_from_type.go:143-240 | the plan is field-by-field `ActionOf`; it fails with the panic of the first malformed field |
| StructFacts.PlanSucceeds | humaproto/schema_from_type.go:143-240 | the plan succeeds exactly when every field's action does, and then it lists those actions in field order |
| StructFacts.PlanFirstFailure | humaproto/schema_from_type.go:143-240 | a failed plan carries the panic of a malformed field all of whose predecessors parse |
| StructFacts.OnePropertyPerGoName | humaproto/schema_from_type.go:146-150 | two fields that both become properties have different Go names |
| StructFacts.ShadowedSkipped | humaproto/schema_from_type.go:146-150 | a later field with the Go name of an earlier non-oneof field is skipped |
| StructFacts.IgnoredAndHiddenSkipped | humaproto/schema_from_type.go:223-236 | a field named "-" or hidden never becomes a property |
| StructFacts.PropertyAction | humaproto/schema_from_type.go:146-240 | a property comes from an unshadowed, non-oneof field whose tags document it under that name |
| StructFacts.PropsFromActions | humaproto/schema_from_type.go:248 | every property key is the name of a property action |
| StructFacts.AnsweredPropsKept | humaproto/schema_from_type.go:242-248 | every property action whose nested answer is a schema leaves its name among the properties; later steps never drop a name |
| StructFacts.AssembleInvariant | humaproto/schema_from_type.go:189-254 | every required name is a property; the additionalProperties default is skipped exactly when alternatives exist |
| StructFacts.AltsShape | humaproto/schema_from_type.go:152-200 | each alternative is an object with one property, its one required name, named by `getName` of an eligible method and holding that method's schema |
| StructFacts.CloseDependents | humaproto/schema_from_type.go:265-303 | the object comes out only when every dependent is a property; the panic lists exactly the missing pairs, grouped by field in sorted order; dependentRequired is the parsed map |
| StructFacts.CloseDefaults | humaproto/schema_from_type.go:285-298 | with alternatives, additionalProperties is unset and the object not nullable; otherwise both come from the `_` field's defaults |
| StructFacts.BlankFieldDefaults | humaproto/schema_from_type.go:285-298 | additional properties are allowed only when the `_` field says "true"; without a `_` field they are refused |
| StructFacts.StructObject | humaproto/schema_from_type.go:133-305 | a derived struct object has required ⊆ properties, dependents among properties, additionalProperties unset exactly with oneOf; every property is documented by an unshadowed field's tags, and conversely every field whose property request was answered with a schema has its name among the properties |
| Dependents.MissingOf | humaproto/schema_from_type.go:273-279 | exactly the dependents of a field that are not properties |
| Dependents.MissingAlong | humaproto/schema_from_type.go:272-280 | exactly the missing (field, dependent) pairs over the keys |
| Dependents.NoneMissing | humaproto/schema_from_type.go:281-283 | no error exactly when every dependent is a property |
| Dependents.MissingAlongOrdered | humaproto/schema_from_type.go:266-280 | with sorted keys the errors come grouped by field in sorted order |
| Dependents.SortedKeys | humaproto/schema_from_type.go:267-271 | the keys are collected in any order and sorted: the result is the one ascending order of the map's keys |
| Dependents.CheckDependents | humaproto/schema_from_type.go:272-280 | the nested loops compute `MissingAlong` |
| GoStrings.SortStrings | humaproto/schema_from_type.go:271 | sort.Strings: sorted and a permutation |
| GoStrings.SortedUnique | humaproto/schema_from_type.go:271 | two sorted permutations of a list of distinct keys are equal |
| GoStrings.JoinSplit | humaproto/schema_from_type.go:238-239 | joining the split of a string gives the string back |
| GoStrings.SplitJoin | humaproto/schema_from_type.go:238-239 | splitting the join of separator-free parts gives the parts back |
| GoStrings.ContainsAt | humaproto/schema_from_type.go:219 | strings.Contains holds exactly when the text occurs at some offset |
| GoStrings.IndexOf | humaproto/schema_from_type.go:216 | the first index of the separator, or -1 when it is absent |
| GoStrings.ByteLen | humaproto/registry.go:126 | Go's len of a string: between one and four bytes per character |
| GoStrings.ByteLenConcat | humaproto/registry.go:126 | byte lengths add up over concatenation |
| GoStrings.CharOffset | humaproto/registry.go:126 | the character index at which a byte offset falls between characters, or None exactly when no prefix of the string has that many bytes |
| GoStrings.CharOffsetUnique | humaproto/registry.go:126 | at most one character index lies at a given byte offset |

## Left out

- json_format.go (the protojson codec facade) and the registry's MarshalJSON/MarshalYAML are not part of this model. They only hand the maps to an encoder.
- huma.SchemaFromField is modelled as the one request it makes, `Schema(f.Type, true, hint)`. The tag refinements huma applies on top (descriptions, examples, enums, defaults, explicit `nullable`) are left out. So are the `nullable:"false"` overrides those make of the scalar default.
- `PrecomputeMessages` is left out. It only caches validation messages inside a node.
- A SchemaProvider's `Schema(r)` and a SchemaTransformer's `TransformSchema(r, s)` are taken as total functions of the type (and of the node) in `Hooks`. Their own requests to the registry are not modelled.
- Schema nodes are values, so aliasing of nodes is not modelled. Go mutates the node it gets for a field in place: it sets the protojson string type before storing the node among the properties (schema_from_type.go:244-248), and the omitempty `Nullable = false` after (schema_from_type.go:256-260). The model stores the adjusted node in the property only. In Go, the node may be shared: the node of a SchemaProvider is taken as it is, and a SchemaTransformer may return a node held elsewhere. Other holders of such a node then see the change too, and the model does not capture that.
- Go's `unicode.ToLower` is modelled on Latin-1 letters only. Other letters are their own lower case here.
- `t.FieldByName("_")` is modelled on the struct's own fields. A `_` field promoted from an embedded struct is not looked at.
- HumaProto.Registry.Schema: the answer is described by predicates (`Answers`, `FromType`, `SubsAnswered`) that fix it level by level from the type and the registry's answers to its nested requests, not by a function that computes the schema. No contract states that a request succeeds given enough levels. What is stated of a panic is where it can come from: the first failing field or method with the earlier ones answered, the close of a struct whose fields were all answered, a name already taken while the struct was never named, or running out of levels.
- The Go recursion becomes the `depth` bound. `StackExhausted` stands for Go's stack overflow on an alias cycle or an endless chain of unnamed types. It is also returned whenever the given number of levels is too small for the type, where Go's much deeper stack would still succeed.
- Types.WF: the type table is required to have no pointer cycle (`type P *P`), so `deref` terminates. On such a type Go's deref loop (registry.go:47-52) never ends.
- The panic messages are structured `Abort` values (name, types, field, tag value, the list of missing pairs) rather than formatted strings.
- RegistryState.RequestOutcome: like `RequestAbort`, it describes a nested request's DuplicateName panic without the registry's state, as the name the namer gives the struct reached and that struct. That the name is held by the existing type named in the panic and that the struct was never named is stated of the state the request leaves, by each method's `DuplicateHeld` postcondition.
- HumaProto.Registry.Map: returns a copy of the name-to-schema map. Go returns the registry's own map, so a caller holding it sees later registrations and can change the registry through it; the model captures neither.
- StructFacts.StructObject: states that an answered property's name is among the properties, not which schema it holds, because a later field with the same property name replaces the earlier one's schema.
- Concurrency is left out: the registry is not safe for concurrent use, and the model is sequential.
