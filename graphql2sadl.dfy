/** The translation engine of main.go: a parsed GraphQL document becomes a
    SADL schema. Pure helpers and the specification of the pass are
    functions; gqlSchema, gqlStruct, gqlEnum and gqlUnion, which build the
    schema by appending in loops, are methods proved against them. */
module Graphql2Sadl {
  import opened GraphQLAst
  import opened Sadl

  const SchemaName := "generatedFromGraphQL"
  const ArrayType := "Array"

  /** The messages of the three panics in typeName and gqlStruct. */
  const FixMeMsg := "FixMe"
  const InlineListMsg := "inline list type not supported"
  const ListMsg := "list type not supported"

  /** GraphQL's built-in scalars and the SADL types they become. */
  const PrimitiveTypes: map<string, string> :=
    map["Int" := "Int32", "Float" := "Float64", "Boolean" := "Bool", "ID" := "String"]

  /** The error values gqlSchema returns. */
  datatype TranslationError =
    | UnsupportedScalar(def: Definition)
    | UnsupportedDefinition(kind: string)

  /** A returned error, or a panic that aborts the whole run. */
  datatype Failure = Error(err: TranslationError) | Panic(msg: string)

  datatype Outcome<T> = Ok(value: T) | Fail(failure: Failure)

  // ---------------------------------------------------------------------
  // Pure helpers
  // ---------------------------------------------------------------------

  /** typeName: the name of a named type, the array marker for a list, and a
      panic for a non-null wrapper. */
  function TypeName(t: Type): (r: Outcome<string>)
    ensures r.Fail? <==> t.NonNull?
    ensures r.Fail? ==> r.failure == Panic(FixMeMsg)
    ensures r.Ok? ==> r.value == if t.Named? then t.name else ArrayType
  {
    match t
    case Named(n) => Ok(n)
    case List(_) => Ok(ArrayType)
    case NonNull(_) => Fail(Panic(FixMeMsg))
  }

  /** convertTypeName: built-in scalar names become SADL base types; every
      other name is a reference to a user type and is kept. */
  function ConvertTypeName(n: string): string
  {
    match n
    case "Int" => "Int32"
    case "Float" => "Float64"
    case "Boolean" => "Bool"
    case "ID" => "String"
    case _ => n
  }

  /** stringValue: the text of an optional description, "" when absent. */
  function StringValue(sv: Option<string>): string
  {
    if sv.None? then "" else sv.value
  }

  /** commentValue: every newline becomes a space (SADL comments are one line). */
  function CommentValue(descr: string): (r: string)
    ensures |r| == |descr|
    ensures forall i | 0 <= i < |descr| :: r[i] == if descr[i] == '\n' then ' ' else descr[i]
    ensures '\n' !in r
    decreases |descr|
  {
    if descr == [] then []
    else [if descr[0] == '\n' then ' ' else descr[0]] + CommentValue(descr[1..])
  }

  /** The comment of a definition: commentValue(stringValue(description)). */
  function DescriptionComment(d: Option<string>): (r: string)
    ensures d.None? ==> r == ""
    ensures d.Some? ==> |r| == |d.value|
    ensures '\n' !in r
  {
    CommentValue(StringValue(d))
  }

  // ---------------------------------------------------------------------
  // Struct fields
  // ---------------------------------------------------------------------

  /** The field type shapes gqlStruct translates without panicking. */
  predicate SupportedFieldType(t: Type)
  {
    match t
    case Named(_) => true
    case List(e) => e.Named? || (e.NonNull? && e.inner.Named?)
    case NonNull(Named(_)) => true
    case NonNull(List(e)) => e.Named? || (e.NonNull? && !e.inner.NonNull?)
    case NonNull(NonNull(_)) => false
  }

  /** The body of gqlStruct's field loop: one field definition becomes one
      struct field, or a panic. */
  function ConvertField(f: FieldDefinition): (r: Outcome<StructFieldDef>)
    ensures r.Fail? ==> r.failure.Panic?
  {
    var name, comment := f.name, CommentValue(StringValue(f.description));
    match f.ty
    case Named(n) => Ok(StructFieldDef(name, comment, ConvertTypeName(n), "", false))
    case List(e) =>
      (match e
       case Named(n) => Ok(StructFieldDef(name, comment, ArrayType, ConvertTypeName(n), false))
       case NonNull(it) =>
         if it.Named? then Ok(StructFieldDef(name, comment, ArrayType, ConvertTypeName(it.name), false))
         else Fail(Panic(InlineListMsg))
       case List(_) => Fail(Panic(ListMsg)))
    case NonNull(t) =>
      (match t
       case Named(n) => Ok(StructFieldDef(name, comment, ConvertTypeName(n), "", true))
       case List(e) =>
         (match e
          case Named(n) => Ok(StructFieldDef(name, comment, ArrayType, ConvertTypeName(n), true))
          case NonNull(it) =>
            (match TypeName(it)
             case Ok(s) => Ok(StructFieldDef(name, comment, ArrayType, ConvertTypeName(s), true))
             case Fail(p) => Fail(p))
          case List(_) => Fail(Panic(InlineListMsg)))
       case NonNull(_) =>
         (match TypeName(t)
          case Ok(s) => Ok(StructFieldDef(name, comment, ConvertTypeName(s), "", true))
          case Fail(p) => Fail(p)))
  }

  /** All fields of an object in order, stopping at the first that panics. */
  function ConvertFields(fs: seq<FieldDefinition>): (r: Outcome<seq<StructFieldDef>>)
    ensures r.Ok? <==> forall k | 0 <= k < |fs| :: ConvertField(fs[k]).Ok?
    ensures r.Fail? ==> r.failure.Panic?
    ensures r.Ok? ==> |r.value| == |fs| && forall k | 0 <= k < |fs| :: ConvertField(fs[k]) == Ok(r.value[k])
    decreases |fs|
  {
    if fs == [] then Ok([])
    else
      assert forall k | 1 <= k < |fs| :: fs[k] == fs[1..][k - 1];
      match ConvertField(fs[0])
      case Fail(p) => Fail(p)
      case Ok(fd) =>
        match ConvertFields(fs[1..])
        case Fail(p) => Fail(p)
        case Ok(rest) => Ok([fd] + rest)
  }

  /** When field k is the first that panics, that panic is the result. */
  lemma {:induction false} ConvertFieldsFirstPanic(fs: seq<FieldDefinition>, k: int)
    requires 0 <= k < |fs| && ConvertField(fs[k]).Fail?
    requires forall j | 0 <= j < k :: ConvertField(fs[j]).Ok?
    ensures ConvertFields(fs) == Fail(ConvertField(fs[k]).failure)
    decreases |fs|
  {
    if k > 0 {
      assert fs[1..][k - 1] == fs[k];
      assert forall j | 0 <= j < k - 1 :: fs[1..][j] == fs[j + 1];
      ConvertFieldsFirstPanic(fs[1..], k - 1);
    }
  }

  // ---------------------------------------------------------------------
  // Type definitions
  // ---------------------------------------------------------------------

  /** The struct gqlStruct appends for an object definition, or its panic. */
  function StructTypeDef(o: ObjectDefinition): (r: Outcome<TypeDef>)
    ensures r.Ok? <==> forall k | 0 <= k < |o.fields| :: ConvertField(o.fields[k]).Ok?
    ensures r.Fail? ==> r.failure.Panic?
    ensures r.Ok? ==> r.value.name == o.name && r.value.comment == DescriptionComment(o.description)
    ensures r.Ok? ==> r.value.spec.StructSpec? && |r.value.spec.fields| == |o.fields|
    ensures r.Ok? ==> forall k | 0 <= k < |o.fields| :: ConvertField(o.fields[k]) == Ok(r.value.spec.fields[k])
  {
    match ConvertFields(o.fields)
    case Ok(fields) => Ok(TypeDef(o.name, DescriptionComment(o.description), StructSpec(fields)))
    case Fail(p) => Fail(p)
  }

  /** The enum gqlEnum appends. */
  function EnumTypeDef(e: EnumDefinition): (r: TypeDef)
    ensures r.name == e.name && r.comment == DescriptionComment(e.description)
    ensures r.spec.EnumSpec? && |r.spec.elements| == |e.values|
    ensures forall k | 0 <= k < |e.values| ::
              r.spec.elements[k] == EnumElementDef(e.values[k].name, DescriptionComment(e.values[k].description))
  {
    TypeDef(e.name, DescriptionComment(e.description),
      EnumSpec(seq(|e.values|, k requires 0 <= k < |e.values| =>
        EnumElementDef(e.values[k].name, DescriptionComment(e.values[k].description)))))
  }

  /** The union gqlUnion appends: member names are copied, not converted. */
  function UnionTypeDef(u: UnionDefinition): (r: TypeDef)
    ensures r.name == u.name && r.comment == DescriptionComment(u.description)
    ensures r.spec == UnionSpec(u.types)
  {
    TypeDef(u.name, DescriptionComment(u.description), UnionSpec(u.types))
  }

  // ---------------------------------------------------------------------
  // The pass over the document
  // ---------------------------------------------------------------------

  /** The root operation type names a schema definition declares. */
  function RootNames(ops: seq<OperationTypeDefinition>): set<string>
  {
    set op | op in ops :: op.typeName
  }

  lemma RootNamesSnoc(ops: seq<OperationTypeDefinition>, j: int)
    requires 0 <= j < |ops|
    ensures RootNames(ops[..j + 1]) == RootNames(ops[..j]) + {ops[j].typeName}
  {
    assert ops[..j + 1] == ops[..j] + [ops[j]];
  }

  /** The names a definition adds to the ignore set. */
  function RootsOf(d: Definition): set<string>
  {
    if d.SchemaDef? then RootNames(d.operationTypes) else {}
  }

  predicate AllowedScalar(name: string)
  {
    name == "Timestamp" || name == "UUID"
  }

  /** What one definition adds to schema.Types, given the names ignored so
      far, or the failure that stops the pass. */
  function Contribution(d: Definition, ignore: set<string>): Outcome<seq<TypeDef>>
  {
    match d
    case ObjectDef(o) =>
      if o.name in ignore then Ok([])
      else (match StructTypeDef(o)
            case Ok(td) => Ok([td])
            case Fail(p) => Fail(p))
    case SchemaDef(_) => Ok([])
    case EnumDef(e) => Ok([EnumTypeDef(e)])
    case UnionDef(u) => Ok([UnionTypeDef(u)])
    case InterfaceDef(_) => Ok([])
    case InputObjectDef(_) => Ok([])
    case ScalarDef(name) =>
      if AllowedScalar(name) then Ok([]) else Fail(Error(UnsupportedScalar(d)))
    case OtherDef(kind) => Fail(Error(UnsupportedDefinition(kind)))
  }

  /** The state gqlSchema carries across iterations: the ignore set and
      the types appended so far. */
  datatype State = State(ignore: set<string>, types: seq<TypeDef>)

  /** One iteration of gqlSchema's loop. */
  function Step(st: State, d: Definition): Outcome<State>
  {
    match Contribution(d, st.ignore)
    case Ok(tds) => Ok(State(st.ignore + RootsOf(d), st.types + tds))
    case Fail(p) => Fail(p)
  }

  /** The rest of the loop, from a state, stopping at the first failure. */
  function Run(defs: seq<Definition>, st: State): Outcome<State>
    decreases |defs|
  {
    if defs == [] then Ok(st)
    else
      match Step(st, defs[0])
      case Ok(st') => Run(defs[1..], st')
      case Fail(p) => Fail(p)
  }

  /** One iteration of gqlSchema's loop ended with `err` and state `st'`,
      as `Step` specifies. */
  ghost predicate Progress(st: State, d: Definition, err: Option<Failure>, st': State)
  {
    Step(st, d) == if err.Some? then Fail(err.value) else Ok(st')
  }

  /** The loop from position i goes on from i + 1, or stops, as one step says. */
  lemma RunFrom(defs: seq<Definition>, i: int, st: State, err: Option<Failure>, st': State)
    requires 0 <= i < |defs| && Progress(st, defs[i], err, st')
    ensures err.None? ==> Run(defs[i..], st) == Run(defs[i + 1..], st')
    ensures err.Some? ==> Run(defs[i..], st) == Fail(err.value)
  {
    assert defs[i..][0] == defs[i] && defs[i..][1..] == defs[i + 1..];
  }

  /** What gqlSchema returns for a document. */
  function Translate(doc: Document): Outcome<SchemaValue>
  {
    match Run(doc.definitions, State({}, []))
    case Ok(st) => Ok(SchemaValue(SchemaName, st.types))
    case Fail(p) => Fail(p)
  }

  // ---------------------------------------------------------------------
  // The imperative translators
  // ---------------------------------------------------------------------

  /** gqlSchema: one forward pass over the definitions. */
  method GqlSchema(doc: Document) returns (r: Outcome<SchemaValue>)
    ensures r == Translate(doc)
  {
    var schema := new Schema(SchemaName);
    var ignore: set<string> := {};
    var defs := doc.definitions;
    var i := 0;
    while i < |defs|
      invariant 0 <= i <= |defs|
      invariant schema.name == SchemaName
      invariant Run(defs, State({}, [])) == Run(defs[i..], State(ignore, schema.types))
    {
      var def := defs[i];
      ghost var st := State(ignore, schema.types);
      assert st.types + [] == st.types && st.ignore + {} == st.ignore;
      var err: Option<Failure> := None;
      match def {
        case ObjectDef(o) =>
          if o.name !in ignore {
            err := GqlStruct(schema, o);
          }
          assert Progress(st, def, err, State(ignore, schema.types));
        case SchemaDef(ops) =>
          var j := 0;
          while j < |ops|
            invariant 0 <= j <= |ops|
            invariant ignore == st.ignore + RootNames(ops[..j])
            invariant schema.name == SchemaName && schema.types == st.types
          {
            RootNamesSnoc(ops, j);
            ignore := ignore + {ops[j].typeName};
            j := j + 1;
          }
          assert ops[..j] == ops;
          assert Progress(st, def, err, State(ignore, schema.types));
        case EnumDef(e) =>
          err := GqlEnum(schema, e);
          assert Progress(st, def, err, State(ignore, schema.types));
        case UnionDef(u) =>
          err := GqlUnion(schema, u);
          assert Progress(st, def, err, State(ignore, schema.types));
        case InterfaceDef(_) =>
          assert Progress(st, def, err, State(ignore, schema.types));
        case InputObjectDef(_) =>
          assert Progress(st, def, err, State(ignore, schema.types));
        case ScalarDef(sname) =>
          if sname != "Timestamp" && sname != "UUID" {
            err := Some(Error(UnsupportedScalar(def)));
          }
          assert Progress(st, def, err, State(ignore, schema.types));
        case OtherDef(kind) =>
          err := Some(Error(UnsupportedDefinition(kind)));
          assert Progress(st, def, err, State(ignore, schema.types));
      }
      RunFrom(defs, i, st, err, State(ignore, schema.types));
      if err.Some? {
        return Fail(err.value);
      }
      i := i + 1;
    }
    return Ok(schema.Value());
  }

  /** gqlStruct: builds the struct's fields in order, then appends it. A
      panic leaves the schema as it was. */
  method GqlStruct(schema: Schema, def: ObjectDefinition) returns (err: Option<Failure>)
    modifies schema
    ensures schema.name == old(schema.name)
    ensures StructTypeDef(def).Ok? ==> err == None && schema.types == old(schema.types) + [StructTypeDef(def).value]
    ensures StructTypeDef(def).Fail? ==> err == Some(StructTypeDef(def).failure) && schema.types == old(schema.types)
  {
    var fields: seq<StructFieldDef> := [];
    var i := 0;
    while i < |def.fields|
      invariant 0 <= i <= |def.fields|
      invariant |fields| == i
      invariant forall k | 0 <= k < i :: ConvertField(def.fields[k]) == Ok(fields[k])
    {
      var fd := ConvertField(def.fields[i]);
      if fd.Fail? {
        ConvertFieldsFirstPanic(def.fields, i);
        return Some(fd.failure);
      }
      fields := fields + [fd.value];
      i := i + 1;
    }
    var td := TypeDef(def.name, CommentValue(StringValue(def.description)), StructSpec(fields));
    assert ConvertFields(def.fields).Ok?;
    assert ConvertFields(def.fields).value == fields;
    assert StructTypeDef(def) == Ok(td);
    schema.types := schema.types + [td];
    return None;
  }

  /** gqlEnum: one element per enum value, in order; never fails. */
  method GqlEnum(schema: Schema, def: EnumDefinition) returns (err: Option<Failure>)
    modifies schema
    ensures err == None
    ensures schema.name == old(schema.name)
    ensures schema.types == old(schema.types) + [EnumTypeDef(def)]
  {
    var comment := "";
    if def.description.Some? {
      comment := CommentValue(def.description.value);
    }
    var elements: seq<EnumElementDef> := [];
    var i := 0;
    while i < |def.values|
      invariant 0 <= i <= |def.values|
      invariant |elements| == i
      invariant forall k | 0 <= k < i ::
                  elements[k] == EnumElementDef(def.values[k].name, DescriptionComment(def.values[k].description))
    {
      var symdef := def.values[i];
      var el := EnumElementDef(symdef.name, "");
      if symdef.description.Some? {
        el := el.(comment := CommentValue(symdef.description.value));
      }
      elements := elements + [el];
      i := i + 1;
    }
    assert elements == EnumTypeDef(def).spec.elements;
    schema.types := schema.types + [TypeDef(def.name, comment, EnumSpec(elements))];
    return None;
  }

  /** gqlUnion: the member type names, verbatim and in order; never fails. */
  method GqlUnion(schema: Schema, def: UnionDefinition) returns (err: Option<Failure>)
    modifies schema
    ensures err == None
    ensures schema.name == old(schema.name)
    ensures schema.types == old(schema.types) + [UnionTypeDef(def)]
  {
    var comment := "";
    if def.description.Some? {
      comment := CommentValue(def.description.value);
    }
    var variants: seq<string> := [];
    var i := 0;
    while i < |def.types|
      invariant 0 <= i <= |def.types|
      invariant variants == def.types[..i]
    {
      variants := variants + [def.types[i]];
      i := i + 1;
    }
    assert def.types[..i] == def.types;
    schema.types := schema.types + [TypeDef(def.name, comment, UnionSpec(variants))];
    return None;
  }
}
