/** What a cloud variable can hold. */
module Values {
  // An app may store any JSON value. Nulls, arrays and objects are told apart and never looked
  // into; SenML has no field for them.
  datatype Value =
    | IntValue(i: int)
    | FloatValue(f: real)
    | StringValue(s: string)
    | BoolValue(b: bool)
    | JsonValue(tree: nat)

  predicate HasSenmlType(v: Value) {
    !v.JsonValue?
  }
}
