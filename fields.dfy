/** Explicit field descriptors standing in for the reflection the extractor
    performs on the target structs. */
module Fields {

  /** The `reflect.Kind` of a field, as far as the binder tells kinds apart. */
  datatype Kind = Int | Int64 | String | Bool | Unsupported(goKind: string)

  /** The current content of a field. `OtherValue` is the content of a field
      of an unsupported kind. */
  datatype Value = IntValue(i: int) | StringValue(s: string) | BoolValue(b: bool) | OtherValue

  /** One struct field: its identifier, its struct tag (key to value, as
      `reflect.StructTag.Lookup` sees it), whether `IsValid() && CanSet()`
      holds for it, its kind and its current value. */
  datatype Field = Field(name: string, tags: map<string, string>, settable: bool, kind: Kind, value: Value)

  /** A target struct, written in place through its pointer. */
  class ConfigRecord {
    var fields: seq<Field>

    constructor (fields: seq<Field>)
      ensures this.fields == fields
    {
      this.fields := fields;
    }
  }
}
