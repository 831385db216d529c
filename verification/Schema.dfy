/** Schema types: the parsed tree (`schema/compiler.rs`) and the arena nodes
    it is lowered to (`schema/ir.rs`). */
module Schema {
  import opened Wrappers
  import opened Values

  datatype IntConstraints = IntConstraints(min: Option<I64>, max: Option<I64>)

  datatype FloatConstraints = FloatConstraints(min: Option<F64>, max: Option<F64>)

  datatype StringFormat = Email | Uuid | Url

  datatype StringConstraints =
    StringConstraints(minSize: Option<Usize>, maxSize: Option<Usize>, format: Option<StringFormat>)

  datatype CollectionConstraints =
    CollectionConstraints(minSize: Option<Usize>, maxSize: Option<Usize>)

  datatype ExtraBehavior = Forbid | Ignore | Allow

  datatype FieldPresence = Required | Optional

  datatype PrimitiveType =
    | Any
    | Bool
    | Int(ints: IntConstraints)
    | Float(floats: FloatConstraints)
    | String(strings: StringConstraints)
    | Symbol

  datatype FieldExpr = FieldExpr(name: string, presence: FieldPresence, ty: TypeExpr)

  datatype TypeExpr =
    | Primitive(primitive: PrimitiveType)
    | Enum(variants: seq<string>)
    | Optional(of: TypeExpr)
    | List(of: TypeExpr, constraints: CollectionConstraints)
    | Dict(value: TypeExpr, constraints: CollectionConstraints)
    | Struct(fields: seq<FieldExpr>, extra: ExtraBehavior)

  /** Ids are 32 bits wide in the source. */
  type NodeId = x: int | 0 <= x < 0x1_0000_0000

  const U32_MAX: nat := 0xFFFF_FFFF

  datatype StructField = StructField(name: string, presence: FieldPresence, node: NodeId)

  datatype Node =
    | Primitive(primitive: PrimitiveType)
    | Enum(variants: seq<string>)
    | Optional(of: NodeId)
    | List(of: NodeId, constraints: CollectionConstraints)
    | Dict(value: NodeId, constraints: CollectionConstraints)
    | Struct(fields: seq<StructField>, extra: ExtraBehavior)

  /** A compiled schema: the finished arena and the id of its root. */
  datatype SchemaIr = SchemaIr(nodes: seq<Node>, root: NodeId)

  function FieldNames(fields: seq<FieldExpr>): seq<string> {
    seq(|fields|, i requires 0 <= i < |fields| => fields[i].name)
  }

  function NodeNames(fields: seq<StructField>): seq<string> {
    seq(|fields|, i requires 0 <= i < |fields| => fields[i].name)
  }

  /** No struct in the schema, at any depth, declares a name twice. The parser
      does not enforce this; results that need it say so. */
  predicate NamesDistinct(ty: TypeExpr) {
    match ty
    case Primitive(_) => true
    case Enum(_) => true
    case Optional(of) => NamesDistinct(of)
    case List(of, _) => NamesDistinct(of)
    case Dict(value, _) => NamesDistinct(value)
    case Struct(fields, _) =>
      && Distinct(FieldNames(fields))
      && forall i | 0 <= i < |fields| :: NamesDistinct(fields[i].ty)
  }

  /** Every sub-expression of a type, itself included. */
  ghost function SubExprs(ty: TypeExpr): set<TypeExpr> {
    {ty} +
    match ty
    case Primitive(_) => {}
    case Enum(_) => {}
    case Optional(of) => SubExprs(of)
    case List(of, _) => SubExprs(of)
    case Dict(value, _) => SubExprs(value)
    case Struct(fields, _) => set i, s | 0 <= i < |fields| && s in SubExprs(fields[i].ty) :: s
  }
}
