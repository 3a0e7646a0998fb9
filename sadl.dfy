/** The SADL schema the translator builds (the part of sadl.Schema and
    sadl.TypeDef that main.go fills in). */
module Sadl {

  /** A struct field. `items` is the element type when `typ` is "Array", and
      "" (Go's zero value) when it is not set. */
  datatype StructFieldDef = StructFieldDef(name: string, comment: string, typ: string, items: string, required: bool)

  datatype EnumElementDef = EnumElementDef(symbol: string, comment: string)

  /** The kind-specific part of a type definition; its constructor is the
      TypeSpec.Type tag ("Struct", "Enum" or "Union"). */
  datatype TypeSpec =
    | StructSpec(fields: seq<StructFieldDef>)
    | EnumSpec(elements: seq<EnumElementDef>)
    | UnionSpec(variants: seq<string>)

  datatype TypeDef = TypeDef(name: string, comment: string, spec: TypeSpec)

  /** The value of a schema once built. */
  datatype SchemaValue = SchemaValue(name: string, types: seq<TypeDef>)

  /** The schema under construction, which the translators append to in place. */
  class Schema {
    var name: string
    var types: seq<TypeDef>

    constructor (name: string)
      ensures this.name == name && types == []
    {
      this.name := name;
      types := [];
    }

    function Value(): SchemaValue
      reads this
    {
      SchemaValue(name, types)
    }
  }
}
