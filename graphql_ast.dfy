/** The parsed GraphQL document the translator consumes: the part of the
    graphql-go AST (language/ast) that main.go inspects. Names are plain
    strings; an optional description (a nil *ast.StringValue) is an Option. */
module GraphQLAst {

  datatype Option<T> = None | Some(value: T)

  /** A type reference: a named type, a list of a type, or a non-null wrapper. */
  datatype Type =
    | Named(name: string)
    | List(elem: Type)
    | NonNull(inner: Type)

  datatype FieldDefinition = FieldDefinition(name: string, description: Option<string>, ty: Type)

  datatype ObjectDefinition = ObjectDefinition(name: string, description: Option<string>, fields: seq<FieldDefinition>)

  datatype EnumValueDefinition = EnumValueDefinition(name: string, description: Option<string>)

  datatype EnumDefinition = EnumDefinition(name: string, description: Option<string>, values: seq<EnumValueDefinition>)

  /** A union's member types, by name. */
  datatype UnionDefinition = UnionDefinition(name: string, description: Option<string>, types: seq<string>)

  /** One `query: T` / `mutation: T` / `subscription: T` entry of a schema definition. */
  datatype OperationTypeDefinition = OperationTypeDefinition(operation: string, typeName: string)

  /** A top-level definition of a document. `OtherDef` stands for every AST node
      kind main.go does not name (operations, fragments, directives, extensions),
      carrying the node's kind. */
  datatype Definition =
    | ObjectDef(obj: ObjectDefinition)
    | SchemaDef(operationTypes: seq<OperationTypeDefinition>)
    | EnumDef(enm: EnumDefinition)
    | UnionDef(union: UnionDefinition)
    | InterfaceDef(name: string)
    | InputObjectDef(name: string)
    | ScalarDef(name: string)
    | OtherDef(kind: string)

  datatype Document = Document(definitions: seq<Definition>)
}
