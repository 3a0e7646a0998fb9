# graphql2sadl translation engine, in Dafny

This project models the translation engine of `graphql2sadl` (main.go). The
engine takes a parsed GraphQL document and builds a SADL schema named
`generatedFromGraphQL`:

- GraphQL object types become SADL structs.
- GraphQL enums become SADL enums.
- GraphQL unions become SADL unions.

Files:

- `graphql_ast.dfy` (module `GraphQLAst`): the part of the graphql-go AST
  that the engine reads. Type references are `Named | List | NonNull`. A
  description is an `Option<string>`. Definition kinds main.go does not name
  become `OtherDef(kind)`.
- `sadl.dfy` (module `Sadl`): the SADL values the engine builds. The
  `Schema` class is the schema that the translators append to in place.
- `graphql2sadl.dfy` (module `Graphql2Sadl`): the engine.
  - The pure helpers are functions: `TypeName`, `ConvertTypeName`,
    `StringValue`, `CommentValue` and `ConvertField`. `ConvertField` is the
    per-field type switch of gqlStruct.
  - The functions `Contribution`, `Step`, `Run` and `Translate` specify the
    pass.
  - The methods `GqlSchema`, `GqlStruct`, `GqlEnum` and `GqlUnion` are the
    loops of main.go. Each is proved against those functions.
- `graphql2sadl_properties.dfy` (module `Graphql2SadlProperties`): lemmas about
  the specification. The main one, `TranslateCharacterized`, describes the
  result by position in the document. Each definition contributes according
  to the root names declared by the schema definitions BEFORE it. The output
  is those contributions flattened in document order. The first failing
  definition decides the failure.

A returned Go error is `Fail(Error(e))`. A Go panic is `Fail(Panic(msg))`,
carrying the panic's own message. The two are kept apart. Both end the pass.

Behaviour of the code that the model keeps on purpose:

- The ignore set is built in the same single forward pass, so an object that
  appears before the schema definition naming it is still emitted
  (`IgnoreAppliesOnlyAfterSchemaDefinition`). A two-pass design would drop
  it. The model follows the code.
- `switch sname { case "Timestamp": case "UUID": … }` does not fall through in
  Go, so both scalar names are accepted.
- The nesting rules are not symmetric:
  - `List(NonNull(List _))` panics.
  - `NonNull(List(NonNull(List _)))` is accepted with items `"Array"`, because
    that branch goes through `typeName`.
  - `NonNull(NonNull _)` panics with `typeName`'s "FixMe".

## Model

| member | source | states |
|---|---|---|
| `Graphql2Sadl.TypeName` | main.go:103-112 | panics ("FixMe") exactly for a non-null node; otherwise gives the type's name, or "Array" for a list |
| `Graphql2SadlProperties.ConvertTypeNameMapping` | main.go:114-128 | maps Int, Float, Boolean and ID to Int32, Float64, Bool and String; any other name is returned unchanged; the result is never one of the four GraphQL names |
| `Graphql2Sadl.CommentValue` | main.go:137-140 | same length as the input; every newline becomes a space; every other character stays in place; the result has no newline |
| `Graphql2Sadl.DescriptionComment` | main.go:130-140 | an absent description gives ""; a present one gives a comment of the same length with no newline |
| `Graphql2Sadl.ConvertField` | main.go:190-233 | a field either translates or panics; it never returns an error |
| `Graphql2SadlProperties.ConvertFieldSpec` | main.go:190-233 | a field translates exactly on the shapes of `SupportedFieldType`; it keeps the field's name and folded comment; `required` holds iff the outermost type is non-null; items are set only on arrays |
| `Graphql2Sadl.ConvertFields` | main.go:190-234 | succeeds iff every field does, and then gives one struct field per source field, in order; a failure is always a panic |
| `Graphql2Sadl.ConvertFieldsFirstPanic` | main.go:190-234 | when field k is the first that panics, the struct translation ends with that field's panic |
| `Graphql2Sadl.StructTypeDef` | main.go:182-237 | succeeds iff every field converts; the struct keeps the object's name and comment and has one field per source field, in order; otherwise it panics |
| `Graphql2Sadl.EnumTypeDef` | main.go:142-163 | the enum keeps its name and comment and has one element per value, in order, with the value's symbol and folded comment |
| `Graphql2Sadl.UnionTypeDef` | main.go:165-180 | the union keeps its name and comment; its variants are the member names verbatim, in order, with no type-name conversion |
| `Graphql2SadlProperties.ContributionShape` | main.go:66-95 | a definition adds at most one type; exactly one for an enum, a union, or an object that is not ignored and translates; an error exactly for a scalar other than Timestamp/UUID or an unknown definition kind; a panic exactly for an object that is not ignored and has an unsupported field |
| `Graphql2Sadl.GqlSchema` | main.go:59-101 | the loop with its ignore set returns exactly what `Translate` specifies |
| `Graphql2Sadl.GqlStruct` | main.go:182-237 | appends exactly `StructTypeDef(def)` and returns nil; on a panic the schema is unchanged; the schema name is untouched |
| `Graphql2Sadl.GqlEnum` | main.go:142-163 | appends exactly `EnumTypeDef(def)`, returns nil and changes nothing else |
| `Graphql2Sadl.GqlUnion` | main.go:165-180 | appends exactly `UnionTypeDef(def)`, returns nil and changes nothing else |
| `Graphql2SadlProperties.ConvertTypeNameIdempotent` | main.go:114-128 | converting a converted name changes nothing |
| `Graphql2SadlProperties.CommentValueIdempotent` | main.go:137-140 | folding newlines twice is the same as folding once |
| `Graphql2SadlProperties.CommentValueUnchangedIff` | main.go:137-140 | a description is kept verbatim iff it has no newline |
| `Graphql2SadlProperties.CommentValueConcat` | main.go:137-140 | folding distributes over concatenation |
| `Graphql2SadlProperties.CommentFoldsLineBreak` | main.go:137-140 | "a\nb" (no other newlines) becomes "a b" |
| `Graphql2SadlProperties.NamedFieldShape` | main.go:196-218 | `Named(n)` and `NonNull(Named(n))` give type `ConvertTypeName(n)`, no items, and required iff non-null |
| `Graphql2SadlProperties.ListFieldShape` | main.go:199-224 | `List(Named n)` and `List(NonNull(Named n))`, with or without an outer non-null, give type "Array" and items `ConvertTypeName(n)` |
| `Graphql2SadlProperties.NonNullListOfNonNullList` | main.go:219-225 | `NonNull(List(NonNull(List _)))` is accepted with type and items both "Array" |
| `Graphql2SadlProperties.PanicShapes` | main.go:196-231 | `List(List _)` panics with "list type not supported"; `List(NonNull(non-named))` and `NonNull(List(List _))` panic with "inline list type not supported"; `NonNull(List(NonNull(NonNull _)))` and `NonNull(NonNull _)` panic with "FixMe" |
| `Graphql2SadlProperties.RunSucceeds` | main.go:63-100 | from any state, the loop succeeds iff every contribution does; it then appends the contributions in document order and ends with every declared root name ignored |
| `Graphql2SadlProperties.RunStopsAtFirstFailure` | main.go:96-98 | otherwise the loop returns the failure of the first failing definition |
| `Graphql2SadlProperties.TranslateCharacterized` | main.go:59-101 | on success the schema is named "generatedFromGraphQL" and its types are the contributions in document order, where an object is ignored iff a schema definition earlier in the document names it; on failure the result is the first failing definition's failure |
| `Graphql2SadlProperties.ObjectIgnoredIff` | main.go:67-75 | an object that translates contributes nothing iff an earlier schema definition names it, and its struct otherwise |
| `Graphql2SadlProperties.RunAppend` | main.go:65-99 | the pass over `defs + more` is the pass over `defs`, then, if that succeeded, the pass over `more` from where it stopped |
| `Graphql2SadlProperties.FailureStopsTranslation` | main.go:96-98 | once a prefix fails, appending definitions changes nothing: later definitions are never processed |
| `Graphql2SadlProperties.SkippedDefinitionsOnly` | main.go:71-92 | schema, interface and input-object definitions and Timestamp/UUID scalars add no types and raise no error |
| `Graphql2SadlProperties.SkippedDocumentIsEmpty` | main.go:59-101 | a document of only such definitions translates to an empty schema |
| `Graphql2SadlProperties.IgnoreAppliesOnlyAfterSchemaDefinition` | main.go:63-75 | an object named as a root type is dropped when the schema definition comes first, and emitted when it comes after |
| `Graphql2SadlProperties.FieldExamples` | main.go:190-233 | `NonNull(Named String)` gives required String; `Named String` gives optional String; `List(Named Int)` gives Array of Int32; `NonNull(List(NonNull(Named ID)))` gives required Array of String |
| `Graphql2SadlProperties.ScalarExamples` | main.go:84-92 | a UUID scalar translates to an empty schema; a Date scalar is an unsupported-scalar error carrying the definition |
| `Graphql2SadlProperties.EnumAndUnionExamples` | main.go:142-180 | enum values [A, B] give elements [A, B]; union members [Cat, Dog] give variants [Cat, Dog] |

## Left out

- `main` (main.go:22-57) is not modelled. It does flag parsing, reads the file, calls the graphql-go parser, validates with `sadl.NewModel` and prints with `sadl.Pretty`/`sadl.Decompile`. These are I/O and calls into other libraries.
- Error texts are not modelled. The unsupported-scalar error carries the definition itself, not its `sadl.Pretty` rendering. The unsupported-definition error carries the kind string, not `def.GetKind()`'s output.
- The unused `verbose` flag and the blank `_ =` references (main.go:17-20) are not modelled. They are dead global state.
- Go pointer and nil details are not modelled. A description is an `Option<string>`. A union member is its name.
- `GqlSchema` returns the built schema's value rather than a pointer to it.
- The ignore map is a `set<string>`, since only membership is ever read.
- The `TypeSpec.Type` tag ("Struct", "Enum", "Union") is the constructor of `Sadl.TypeSpec`. The slices of the other kinds, left nil in Go, are not represented.
- Panics end the whole process in Go. In the model a panic is a returned `Panic` outcome that ends the pass. The schema being built is no longer observable after it.
- The outer field-type switch of gqlStruct has no default branch (main.go:196). That branch is unreachable over the closed `Type` datatype.
- Determinism is not stated as a lemma. Every specification member is a Dafny function, so it always returns the same result for the same input.
