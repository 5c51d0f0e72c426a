/** The C types a binding is made of. */
module BindModel {
  import opened Options

  /** A record is known by its place, since types may name it in a cycle. */
  type Id = nat

  datatype Type =
    | Void
    | Bool
    | Scalar(name: string)
    | Enum(name: string)
    | Record(id: Id)
    | Opaque
    | Unsupported
    | VaList
    | Pointer(to: Type)
    | Array(length: int, to: Type)
    | Function(to: Type, params: seq<Type>, variadic: bool)

  /** A member of a record: without a name where C gives it none, and with -1
      for `bits` where it is no bitfield. */
  datatype Field = Field(name: Option<string>, typ: Type, bits: int)

  datatype Rec = Rec(name: string, complete: bool, fields: seq<Field>)
}
