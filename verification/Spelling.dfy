/** One spelling for every type, read back by the parser: nothing a document
    can say about a type is lost or mixed up. */
module Spelling {
  import opened Wrappers
  import opened Values
  import opened Schema
  import opened Paths
  import opened Json
  import opened SchemaParser
  import opened SurfaceForms

  function SpellInt(i: I64): Json {
    JNumber(if i < 0 then Negative(i) else Unsigned(i))
  }

  function SpellSize(n: Usize): Json {
    JNumber(Unsigned(n))
  }

  function SpellFloat(f: F64): Json {
    if f.Finite? then JNumber(Fraction(f.r)) else JNull
  }

  function Given(key: string, value: Option<Json>): Members {
    match value
    case Some(j) => map[key := j]
    case None => map[]
  }

  function Mapped<T>(value: Option<T>, spell: T -> Json): Option<Json> {
    match value
    case Some(x) => Some(spell(x))
    case None => None
  }

  function SpellSizes(minSize: Option<Usize>, maxSize: Option<Usize>): Members {
    Given("min_size", Mapped(minSize, SpellSize)) + Given("max_size", Mapped(maxSize, SpellSize))
  }

  function SpellFormat(format: StringFormat): Json {
    match format
    case Email => JString("email")
    case Uuid => JString("uuid")
    case Url => JString("url")
  }

  function SpellExtra(extra: ExtraBehavior): Json {
    match extra
    case Forbid => JString("forbid")
    case Ignore => JString("ignore")
    case Allow => JString("allow")
  }

  function SpellInts(c: IntConstraints): Members {
    Given("min", Mapped(c.min, SpellInt)) + Given("max", Mapped(c.max, SpellInt))
  }

  function SpellFloats(c: FloatConstraints): Members {
    Given("min", Mapped(c.min, SpellFloat)) + Given("max", Mapped(c.max, SpellFloat))
  }

  function SpellStrings(c: StringConstraints): Members {
    SpellSizes(c.minSize, c.maxSize) + Given("format", Mapped(c.format, SpellFormat))
  }

  function Named(name: string, options: Members): Json {
    JObject(options["type" := JString(name)])
  }

  function SpellPrimitive(primitive: PrimitiveType): Json {
    match primitive
    case Any => Named("any", map[])
    case Bool => Named("bool", map[])
    case Int(c) => Named("int", SpellInts(c))
    case Float(c) => Named("float", SpellFloats(c))
    case String(c) => Named("str", SpellStrings(c))
    case Symbol => Named("sym", map[])
  }

  function SpellVariants(variants: seq<string>): Json {
    JArray(seq(|variants|, i requires 0 <= i < |variants| => JString(variants[i])))
  }

  function SpellField(field: FieldExpr): Json {
    JArray([JString(if field.presence.Required? then "required" else "optional"), JString(field.name),
            Spell(field.ty)])
  }

  function SpellFields(fields: seq<FieldExpr>): seq<Json> {
    seq(|fields|, i requires 0 <= i < |fields| => SpellField(fields[i]))
  }

  function SpellStruct(fields: Json, extra: ExtraBehavior): Members {
    map["extra" := SpellExtra(extra), "fields" := fields]
  }

  function Spell(ty: TypeExpr): Json {
    match ty
    case Primitive(primitive) => SpellPrimitive(primitive)
    case Enum(variants) => Named("enum", map["values" := SpellVariants(variants)])
    case Optional(of) => Named("optional", map["of" := Spell(of)])
    case List(of, c) => Named("list", SpellSizes(c.minSize, c.maxSize)["of" := Spell(of)])
    case Dict(value, c) => Named("dict", SpellSizes(c.minSize, c.maxSize)["values" := Spell(value)])
    case Struct(fields, extra) =>
      Named("struct", SpellStruct(JArray(SpellFields(fields)), extra))
  }

  lemma NamedParses(toF64: int -> F64, name: string, options: Members, path: string)
    requires "type" !in options
    ensures ParseTypeExpr(toF64, Named(name, options), None, path)
         == ParseNamedType(toF64, name, Some(options), None, path)
    ensures MergeOptions(Some(options), None) == options
  {
    assert InlineWithoutType(options["type" := JString(name)]) == options;
  }

  lemma SizesParse(minSize: Option<Usize>, maxSize: Option<Usize>, options: Members, path: string)
    requires Lookup(options, "min_size") == Mapped(minSize, SpellSize)
    requires Lookup(options, "max_size") == Mapped(maxSize, SpellSize)
    ensures ParseCollectionConstraints(options, path) == Success(CollectionConstraints(minSize, maxSize))
  {
  }

  lemma IntsParse(c: IntConstraints, path: string)
    ensures ParseIntConstraints(SpellInts(c), path) == Success(c)
  {
  }

  lemma FloatsParse(toF64: int -> F64, c: FloatConstraints, path: string)
    requires FiniteIf(c.min) && FiniteIf(c.max)
    ensures ParseFloatConstraints(toF64, SpellFloats(c), path) == Success(c)
  {
  }

  lemma StringsParse(c: StringConstraints, path: string)
    ensures ParseStringConstraints(SpellStrings(c), path) == Success(c)
  {
    var options := SpellStrings(c);
    assert Lookup(options, "min_size") == Mapped(c.minSize, SpellSize);
    assert Lookup(options, "max_size") == Mapped(c.maxSize, SpellSize);
    assert Lookup(options, "format") == Mapped(c.format, SpellFormat);
  }

  lemma IntTypeParses(toF64: int -> F64, c: IntConstraints, path: string)
    ensures ParseNamedType(toF64, "int", Some(SpellInts(c)), None, path)
         == Success(TypeExpr.Primitive(PrimitiveType.Int(c)))
  {
    assert Lowercase("int") == "int";
    assert MergeOptions(Some(SpellInts(c)), None) == SpellInts(c);
    IntsParse(c, path);
  }

  lemma FloatTypeParses(toF64: int -> F64, c: FloatConstraints, path: string)
    requires FiniteIf(c.min) && FiniteIf(c.max)
    ensures ParseNamedType(toF64, "float", Some(SpellFloats(c)), None, path)
         == Success(TypeExpr.Primitive(PrimitiveType.Float(c)))
  {
    assert Lowercase("float") == "float";
    assert MergeOptions(Some(SpellFloats(c)), None) == SpellFloats(c);
    FloatsParse(toF64, c, path);
  }

  lemma StringTypeParses(toF64: int -> F64, c: StringConstraints, path: string)
    ensures ParseNamedType(toF64, "str", Some(SpellStrings(c)), None, path)
         == Success(TypeExpr.Primitive(PrimitiveType.String(c)))
  {
    assert Lowercase("str") == "str";
    assert MergeOptions(Some(SpellStrings(c)), None) == SpellStrings(c);
    StringsParse(c, path);
  }

  lemma PlainTypesParse(toF64: int -> F64, path: string)
    ensures ParseNamedType(toF64, "any", Some(map[]), None, path)
         == Success(TypeExpr.Primitive(PrimitiveType.Any))
    ensures ParseNamedType(toF64, "bool", Some(map[]), None, path)
         == Success(TypeExpr.Primitive(PrimitiveType.Bool))
    ensures ParseNamedType(toF64, "sym", Some(map[]), None, path)
         == Success(TypeExpr.Primitive(PrimitiveType.Symbol))
  {
    assert Lowercase("any") == "any" && Lowercase("bool") == "bool" && Lowercase("sym") == "sym";
  }

  lemma PrimitiveParses(toF64: int -> F64, primitive: PrimitiveType, path: string)
    requires BoundsFinite(TypeExpr.Primitive(primitive))
    ensures ParseTypeExpr(toF64, SpellPrimitive(primitive), None, path) == Success(TypeExpr.Primitive(primitive))
  {
    match primitive
    case Int(c) =>
      NamedParses(toF64, "int", SpellInts(c), path);
      IntTypeParses(toF64, c, path);
    case Float(c) =>
      NamedParses(toF64, "float", SpellFloats(c), path);
      FloatTypeParses(toF64, c, path);
    case String(c) =>
      NamedParses(toF64, "str", SpellStrings(c), path);
      StringTypeParses(toF64, c, path);
    case _ =>
      PlainTypesParse(toF64, path);
      NamedParses(toF64, "any", map[], path);
      NamedParses(toF64, "bool", map[], path);
      NamedParses(toF64, "sym", map[], path);
  }

  lemma {:induction false} DedupDistinct(names: seq<string>, n: nat)
    requires Distinct(names) && n <= |names|
    ensures Dedup(names, n) == names[..n]
  {
    if n > 0 {
      DedupDistinct(names, n - 1);
      assert names[..n] == names[..n - 1] + [names[n - 1]];
    }
  }

  lemma VariantsParse(variants: seq<string>, path: string)
    requires variants != [] && Distinct(variants)
    ensures ParseVariants(SpellVariants(variants).items, path) == Success(TypeExpr.Enum(variants))
  {
    var items := SpellVariants(variants).items;
    GatherAll(VariantTexts(items, path), variants, |variants|);
    assert variants[..|variants|] == variants;
    DedupDistinct(variants, |variants|);
  }

  lemma EnumParses(toF64: int -> F64, variants: seq<string>, path: string)
    requires variants != [] && Distinct(variants)
    ensures ParseTypeExpr(toF64, Spell(TypeExpr.Enum(variants)), None, path) == Success(TypeExpr.Enum(variants))
  {
    var options := map["values" := SpellVariants(variants)];
    NamedParses(toF64, "enum", options, path);
    NamedEnum(toF64, Some(options), None, path);
    VariantsParse(variants, path);
  }

  lemma {:induction false} FieldParses(toF64: int -> F64, field: FieldExpr, path: string)
    requires EnumsProper(field.ty) && BoundsFinite(field.ty)
    ensures ParseFieldEntry(toF64, SpellField(field), path) == Success(field)
    decreases field
  {
    SpellingParses(toF64, field.ty, path + ".type");
  }

  lemma {:induction false} FieldsParse(toF64: int -> F64, ty: TypeExpr, items: seq<Json>, path: string, n: nat)
    requires ty.Struct? && EnumsProper(ty) && BoundsFinite(ty) && n <= |ty.fields| == |items|
    requires forall i | 0 <= i < |items| :: items[i] == SpellField(ty.fields[i])
    ensures ParseFields(toF64, items, path, n) == Success(ty.fields[..n])
    decreases ty, 0, n
  {
    if n > 0 {
      FieldsParse(toF64, ty, items, path, n - 1);
      FieldParses(toF64, ty.fields[n - 1], path + ".fields[" + Decimal(n - 1) + "]");
      assert ty.fields[..n] == ty.fields[..n - 1] + [ty.fields[n - 1]];
    }
  }

  lemma StructOptionsParse(toF64: int -> F64, items: seq<Json>, ty: TypeExpr, path: string)
    requires ty.Struct? && ParseFields(toF64, items, path, |items|) == Success(ty.fields)
    ensures ParseStructType(toF64, SpellStruct(JArray(items), ty.extra), path) == Success(ty)
  {
    var options := SpellStruct(JArray(items), ty.extra);
    assert Lookup(options, "fields") == Some(JArray(items));
    assert Lookup(options, "extra") == Some(SpellExtra(ty.extra));
    assert ParseExtra(Some(SpellExtra(ty.extra)), path) == Success(ty.extra);
  }

  lemma {:induction false} StructParses(toF64: int -> F64, ty: TypeExpr, path: string)
    requires ty.Struct? && EnumsProper(ty) && BoundsFinite(ty)
    ensures ParseTypeExpr(toF64, Spell(ty), None, path) == Success(ty)
    decreases ty, 1
  {
    var items := SpellFields(ty.fields);
    var options := SpellStruct(JArray(items), ty.extra);
    FieldsParse(toF64, ty, items, path, |items|);
    assert ty.fields[..|items|] == ty.fields;
    StructOptionsParse(toF64, items, ty, path);
    NamedParses(toF64, "struct", options, path);
    NamedStruct(toF64, Some(options), None, path);
  }

  lemma {:induction false} ListParses(toF64: int -> F64, ty: TypeExpr, path: string)
    requires ty.List? && EnumsProper(ty) && BoundsFinite(ty)
    ensures ParseTypeExpr(toF64, Spell(ty), None, path) == Success(ty)
    decreases ty, 1
  {
    var options := SpellSizes(ty.constraints.minSize, ty.constraints.maxSize)["of" := Spell(ty.of)];
    NamedParses(toF64, "list", options, path);
    NamedList(toF64, Some(options), None, path);
    SpellingParses(toF64, ty.of, path + ".of");
    SizesParse(ty.constraints.minSize, ty.constraints.maxSize, options, path);
  }

  lemma {:induction false} DictParses(toF64: int -> F64, ty: TypeExpr, path: string)
    requires ty.Dict? && EnumsProper(ty) && BoundsFinite(ty)
    ensures ParseTypeExpr(toF64, Spell(ty), None, path) == Success(ty)
    decreases ty, 1
  {
    var options := SpellSizes(ty.constraints.minSize, ty.constraints.maxSize)["values" := Spell(ty.value)];
    NamedParses(toF64, "dict", options, path);
    NamedDict(toF64, Some(options), None, path);
    SpellingParses(toF64, ty.value, path + ".values");
    SizesParse(ty.constraints.minSize, ty.constraints.maxSize, options, path);
  }

  lemma {:induction false} OptionalParses(toF64: int -> F64, ty: TypeExpr, path: string)
    requires ty.Optional? && EnumsProper(ty) && BoundsFinite(ty)
    ensures ParseTypeExpr(toF64, Spell(ty), None, path) == Success(ty)
    decreases ty, 1
  {
    var options := map["of" := Spell(ty.of)];
    NamedParses(toF64, "optional", options, path);
    NamedOptional(toF64, Some(options), None, path);
    SpellingParses(toF64, ty.of, path + ".of");
  }

  /** Every type with proper enums and finite bounds has a document that parses
      to exactly it. */
  lemma {:induction false} SpellingParses(toF64: int -> F64, ty: TypeExpr, path: string)
    requires EnumsProper(ty) && BoundsFinite(ty)
    ensures ParseTypeExpr(toF64, Spell(ty), None, path) == Success(ty)
    decreases ty, 2
  {
    match ty
    case Primitive(primitive) => PrimitiveParses(toF64, primitive, path);
    case Enum(variants) => EnumParses(toF64, variants, path);
    case Optional(of) => OptionalParses(toF64, ty, path);
    case List(_, _) => ListParses(toF64, ty, path);
    case Dict(_, _) => DictParses(toF64, ty, path);
    case Struct(_, _) => StructParses(toF64, ty, path);
  }

  /** A type is what some document says exactly if its enums are non-empty and
      duplicate-free, and its bounds are finite. */
  lemma DocumentsSayExactly(toF64: int -> F64, ty: TypeExpr)
    requires ConvertsFinitely(toF64)
    ensures (exists document :: ParseDocument(toF64, document) == Success(ty))
       <==> EnumsProper(ty) && BoundsFinite(ty)
  {
    if EnumsProper(ty) && BoundsFinite(ty) {
      SpellingParses(toF64, ty, "$");
      assert ParseDocument(toF64, Spell(ty)) == Success(ty);
    }
  }
}
