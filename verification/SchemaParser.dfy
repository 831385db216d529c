/** Parsing of schema documents (the `parse_*` half of `schema/compiler.rs`). */
module SchemaParser {
  import opened Wrappers
  import opened Values
  import opened Schema
  import opened Paths
  import opened Validation
  import opened Json

  datatype Reason =
    | MissingTypeKey
    | UnsupportedTypeExpression
    | UnknownType(name: string)
    | EmptyArrayType
    | UntaggedArrayType
    | MissingInnerType(of: string)
    | MissingValues
    | ValuesNotArray
    | ValueNotString
    | EmptyValues
    | MissingFields
    | FieldsNotArray
    | FieldNotArray
    | FieldTooShort
    | PresenceNotString
    | UnsupportedPresence(presence: string)
    | NameNotString
    | UnknownExtra(extra: string)
    | ExtraNotString
    | NotInteger
    | NotNumber
    | NotUnsigned
    | FormatNotString
    | UnsupportedFormat(format: string)

  datatype CompileError = InvalidSchema(path: string, reason: Reason)

  type Parsed<T> = Result<T, CompileError>

  function Invalid<T>(path: string, reason: Reason): Parsed<T> {
    Failure(InvalidSchema(path, reason))
  }

  /** `str::to_lowercase`, up to what the type names can tell apart: a name
      lower-cases to one of them exactly when its ASCII letters do. */
  function Lowercase(s: string): string {
    seq(|s|, i requires 0 <= i < |s| => AsciiLower(s[i]))
  }

  datatype Kind =
    | AnyKind | BoolKind | IntKind | FloatKind | StringKind | SymbolKind
    | EnumKind | ListKind | DictKind | OptionalKind | StructKind

  /** The type names, lower-cased, with their aliases. */
  function NamedKind(canonical: string): Option<Kind> {
    if canonical == "any" then Some(AnyKind)
    else if canonical == "bool" || canonical == "boolean" then Some(BoolKind)
    else if canonical == "int" || canonical == "integer" then Some(IntKind)
    else if canonical == "float" || canonical == "double" then Some(FloatKind)
    else if canonical == "str" || canonical == "string" then Some(StringKind)
    else if canonical == "sym" || canonical == "symbol" then Some(SymbolKind)
    else if canonical == "enum" then Some(EnumKind)
    else if canonical == "list" then Some(ListKind)
    else if canonical == "dict" then Some(DictKind)
    else if canonical == "optional" then Some(OptionalKind)
    else if canonical == "struct" then Some(StructKind)
    else None
  }

  /** The tags that have an array spelling of their own. */
  function ArrayKind(tag: string): Option<Kind> {
    if tag == "optional" then Some(OptionalKind)
    else if tag == "list" then Some(ListKind)
    else if tag == "dict" then Some(DictKind)
    else if tag == "enum" then Some(EnumKind)
    else if tag == "struct" then Some(StructKind)
    else None
  }

  function Lookup(options: Members, key: string): Option<Json> {
    if key in options then Some(options[key]) else None
  }

  function OrElse<T>(a: Option<T>, b: Option<T>): Option<T> {
    if a.Some? then a else b
  }

  /** Inline options override field options. */
  function MergeOptions(inline: Option<Members>, outer: Option<Members>): Members {
    (if outer.Some? then outer.value else map[]) + (if inline.Some? then inline.value else map[])
  }

  method CopyInto(target: Members, source: Members) returns (merged: Members)
    ensures merged == target + source
  {
    merged := target;
    var rest := source.Keys;
    while rest != {}
      invariant rest <= source.Keys
      invariant merged == target + (source - rest)
      decreases rest
    {
      var key :| key in rest;
      merged := merged[key := source[key]];
      rest := rest - {key};
    }
    assert source - {} == source;
  }

  method MergeMaps(inline: Option<Members>, outer: Option<Members>) returns (merged: Members)
    ensures merged == MergeOptions(inline, outer)
  {
    merged := map[];
    if outer.Some? {
      merged := CopyInto(merged, outer.value);
    }
    if inline.Some? {
      merged := CopyInto(merged, inline.value);
    }
  }

  function InlineWithoutType(members: Members): Members {
    members - {"type"}
  }

  method InlineMapWithout(members: Members, excluded: seq<string>) returns (result: Members)
    ensures result == members - (set k | k in excluded)
  {
    result := map[];
    var rest := members.Keys;
    while rest != {}
      invariant rest <= members.Keys
      invariant result == members - rest - (set k | k in excluded)
      decreases rest
    {
      var key :| key in rest;
      rest := rest - {key};
      if key !in excluded {
        result := result[key := members[key]];
      }
    }
  }

  function ParseUsize(value: Json, path: string): Parsed<Usize> {
    if value.JNumber? && AsU64(value.num).Some? then Success(AsU64(value.num).value)
    else Invalid(path, NotUnsigned)
  }

  function ParseI64(value: Json, path: string): Parsed<I64> {
    if value.JNumber? && AsI64(value.num).Some? then Success(AsI64(value.num).value)
    else Invalid(path, NotInteger)
  }

  function ParseF64(toF64: int -> F64, value: Json, path: string): Parsed<F64> {
    if value.JNumber? then Success(AsF64(toF64, value.num)) else Invalid(path, NotNumber)
  }

  /** An option that is absent, or must parse. */
  function Optionally<T>(value: Option<Json>, parse: Json -> Parsed<T>): Parsed<Option<T>> {
    match value
    case None => Success(None)
    case Some(j) =>
      var x :- parse(j);
      Success(Some(x))
  }

  function ParseIntConstraints(options: Members, path: string): Parsed<IntConstraints> {
    var min :- Optionally(Lookup(options, "min"), j => ParseI64(j, path + ".min"));
    var max :- Optionally(Lookup(options, "max"), j => ParseI64(j, path + ".max"));
    Success(IntConstraints(min, max))
  }

  function ParseFloatConstraints(toF64: int -> F64, options: Members, path: string): (r: Parsed<FloatConstraints>)
    ensures r.Success? && ConvertsFinitely(toF64) ==> FiniteIf(r.value.min) && FiniteIf(r.value.max)
  {
    var min :- Optionally(Lookup(options, "min"), j => ParseF64(toF64, j, path + ".min"));
    var max :- Optionally(Lookup(options, "max"), j => ParseF64(toF64, j, path + ".max"));
    Success(FloatConstraints(min, max))
  }

  function ParseFormat(value: Json, path: string): Parsed<StringFormat> {
    if !value.JString? then Invalid(path, FormatNotString)
    else if value.s == "email" then Success(Email)
    else if value.s == "uuid" then Success(Uuid)
    else if value.s == "url" then Success(Url)
    else Invalid(path, UnsupportedFormat(value.s))
  }

  function ParseStringConstraints(options: Members, path: string): Parsed<StringConstraints> {
    var minSize :- Optionally(Lookup(options, "min_size"), j => ParseUsize(j, path + ".min_size"));
    var maxSize :- Optionally(Lookup(options, "max_size"), j => ParseUsize(j, path + ".max_size"));
    var format :- Optionally(Lookup(options, "format"), j => ParseFormat(j, path + ".format"));
    Success(StringConstraints(minSize, maxSize, format))
  }

  function ParseCollectionConstraints(options: Members, path: string): Parsed<CollectionConstraints> {
    var minSize :- Optionally(Lookup(options, "min_size"), j => ParseUsize(j, path + ".min_size"));
    var maxSize :- Optionally(Lookup(options, "max_size"), j => ParseUsize(j, path + ".max_size"));
    Success(CollectionConstraints(minSize, maxSize))
  }

  function ParseExtra(value: Option<Json>, path: string): Parsed<ExtraBehavior> {
    match value
    case None => Success(Forbid)
    case Some(JString(s)) =>
      if s == "forbid" then Success(Forbid)
      else if s == "ignore" then Success(Ignore)
      else if s == "allow" then Success(Allow)
      else Invalid(path, UnknownExtra(s))
    case Some(_) => Invalid(path, ExtraNotString)
  }

  /** Members of an enum: each once, where first seen. */
  function Dedup(names: seq<string>, n: nat): seq<string>
    requires n <= |names|
  {
    if n == 0 then []
    else if names[n - 1] in Dedup(names, n - 1) then Dedup(names, n - 1)
    else Dedup(names, n - 1) + [names[n - 1]]
  }

  function VariantTexts(items: seq<Json>, path: string): seq<Parsed<string>> {
    seq(|items|, i requires 0 <= i < |items| =>
      if items[i].JString? then Success(items[i].s)
      else Invalid(path + ".values[" + Decimal(i) + "]", ValueNotString))
  }

  /** A type whose enums, at any depth, are non-empty and duplicate-free. */
  predicate EnumsProper(ty: TypeExpr) {
    match ty
    case Primitive(_) => true
    case Enum(variants) => variants != [] && Distinct(variants)
    case Optional(of) => EnumsProper(of)
    case List(of, _) => EnumsProper(of)
    case Dict(value, _) => EnumsProper(value)
    case Struct(fields, _) => forall i | 0 <= i < |fields| :: EnumsProper(fields[i].ty)
  }

  predicate FiniteIf(f: Option<F64>) {
    f.Some? ==> f.value.Finite?
  }

  /** Bounds that JSON has numbers for. */
  predicate BoundsFinite(ty: TypeExpr) {
    match ty
    case Primitive(Float(c)) => FiniteIf(c.min) && FiniteIf(c.max)
    case Primitive(_) => true
    case Enum(_) => true
    case Optional(of) => BoundsFinite(of)
    case List(of, _) => BoundsFinite(of)
    case Dict(value, _) => BoundsFinite(value)
    case Struct(fields, _) => forall i | 0 <= i < |fields| :: BoundsFinite(fields[i].ty)
  }

  /** Every integer has a finite float. */
  ghost predicate ConvertsFinitely(toF64: int -> F64) {
    forall n :: toF64(n).Finite?
  }

  lemma {:induction false} DedupMembers(names: seq<string>, n: nat)
    requires n <= |names|
    ensures Distinct(Dedup(names, n))
    ensures forall s :: s in Dedup(names, n) <==> s in names[..n]
  {
    if n > 0 {
      DedupMembers(names, n - 1);
      assert names[..n] == names[..n - 1] + [names[n - 1]];
    }
  }

  function ParseVariants(items: seq<Json>, path: string): (r: Parsed<TypeExpr>)
    ensures r.Success? ==> EnumsProper(r.value)
  {
    var texts :- Gather(VariantTexts(items, path), |items|);
    if items == [] then Invalid(path, EmptyValues)
    else
      GatherSuccess(VariantTexts(items, path), |items|);
      DedupMembers(texts, |texts|);
      assert texts[0] in texts[..|texts|];
      Success(TypeExpr.Enum(Dedup(texts, |texts|)))
  }

  function ParseEnumType(inlineValues: Option<Json>, options: Members, path: string): (r: Parsed<TypeExpr>)
    ensures r.Success? ==> EnumsProper(r.value)
  {
    match OrElse(OrElse(inlineValues, Lookup(options, "values")), Lookup(options, "in"))
    case None => Invalid(path, MissingValues)
    case Some(values) =>
      if values.JArray? then ParseVariants(values.items, path) else Invalid(path, ValuesNotArray)
  }

  /** What an option map adds to the size of what is being parsed. */
  ghost function Load(options: Option<Members>): nat {
    match options
    case None => 0
    case Some(m) => Weight(JObject(m)) - 1
  }

  ghost function Whole(value: Option<Json>): nat {
    match value
    case None => 0
    case Some(j) => Weight(j)
  }

  lemma LookupWeight(options: Members, key: string)
    ensures Lookup(options, key).Some? ==> 2 * Weight(Lookup(options, key).value) <= Load(Some(options))
  {
    if key in options {
      WeightMember(options, key);
    }
  }

  lemma WeightAtMost(members: Members, bound: nat)
    requires forall k | k in members :: 2 * Weight(members[k]) <= bound
    ensures Load(Some(members)) <= bound
  {
    var weights := set k | k in members :: Weight(members[k]);
    if weights != {} {
      assert Greatest(weights) in weights;
    }
  }

  lemma MergeWeight(inline: Option<Members>, outer: Option<Members>)
    ensures Load(Some(MergeOptions(inline, outer))) <= Load(inline) + Load(outer)
  {
    var merged := MergeOptions(inline, outer);
    forall k | k in merged ensures 2 * Weight(merged[k]) <= Load(inline) + Load(outer) {
      if inline.Some? && k in inline.value {
        WeightMember(inline.value, k);
      } else {
        WeightMember(outer.value, k);
      }
    }
    WeightAtMost(merged, Load(inline) + Load(outer));
  }

  lemma InlineWeight(members: Members)
    ensures Load(Some(InlineWithoutType(members))) < Weight(JObject(members))
  {
    var inline := InlineWithoutType(members);
    forall k | k in inline ensures 2 * Weight(inline[k]) <= Weight(JObject(members)) - 1 {
      WeightMember(members, k);
    }
    WeightAtMost(inline, Weight(JObject(members)) - 1);
  }

  function AsObject(value: Option<Json>): Option<Members> {
    match value
    case Some(JObject(members)) => Some(members)
    case _ => None
  }

  function ItemAt(items: seq<Json>, i: nat): Option<Json> {
    if i < |items| then Some(items[i]) else None
  }

  lemma ArrayWeight(items: seq<Json>, i: nat, j: nat)
    ensures Whole(ItemAt(items, i)) + Load(AsObject(ItemAt(items, j))) < Weight(JArray(items))
  {
    if i < |items| {
      WeightItem(items, i);
    }
    if j < |items| {
      WeightItem(items, j);
    }
  }

  /** Whatever an array spelling goes on to parse weighs less than it does. */
  lemma ArrayFits(items: seq<Json>, fieldOptions: Option<Members>)
    requires items != []
    ensures Weight(JArray(items)) > 1
    ensures |items| >= 2 ==> Weight(items[1]) < Weight(JArray(items))
    ensures Whole(ItemAt(items, 1)) + Load(Some(MergeOptions(AsObject(ItemAt(items, 2)), fieldOptions))) + 1
         <= Weight(JArray(items)) + Load(fieldOptions)
    ensures Load(Some(MergeOptions(AsObject(ItemAt(items, 1)), fieldOptions))) + 1
         <= Weight(JArray(items)) + Load(fieldOptions)
  {
    ArrayWeight(items, 1, 2);
    ArrayWeight(items, 2, 1);
    MergeWeight(AsObject(ItemAt(items, 2)), fieldOptions);
    MergeWeight(AsObject(ItemAt(items, 1)), fieldOptions);
    ArrayWeight(items, 0, 0);
  }

  function ParseTypeExpr(toF64: int -> F64, value: Json, fieldOptions: Option<Members>, path: string)
    : (r: Parsed<TypeExpr>)
    ensures r.Success? ==> EnumsProper(r.value)
    ensures r.Success? && ConvertsFinitely(toF64) ==> BoundsFinite(r.value)
    decreases Weight(value) + Load(fieldOptions), 3
  {
    match value
    case JString(name) => ParseNamedType(toF64, name, None, fieldOptions, path)
    case JObject(members) =>
      if "type" in members && members["type"].JString? then
        InlineWeight(members);
        ParseNamedType(toF64, members["type"].s, Some(InlineWithoutType(members)), fieldOptions, path)
      else Invalid(path, MissingTypeKey)
    case JArray(items) => ParseArrayType(toF64, items, fieldOptions, path)
    case _ => Invalid(path, UnsupportedTypeExpression)
  }

  function ParseNamedType(toF64: int -> F64, name: string, inline: Option<Members>, fieldOptions: Option<Members>,
                          path: string): (r: Parsed<TypeExpr>)
    ensures r.Success? ==> EnumsProper(r.value)
    ensures r.Success? && ConvertsFinitely(toF64) ==> BoundsFinite(r.value)
    decreases Load(inline) + Load(fieldOptions) + 1, 2
  {
    var options := MergeOptions(inline, fieldOptions);
    MergeWeight(inline, fieldOptions);
    match NamedKind(Lowercase(name))
    case Some(AnyKind) => Success(TypeExpr.Primitive(PrimitiveType.Any))
    case Some(BoolKind) => Success(TypeExpr.Primitive(PrimitiveType.Bool))
    case Some(IntKind) =>
      var c :- ParseIntConstraints(options, path);
      Success(TypeExpr.Primitive(PrimitiveType.Int(c)))
    case Some(FloatKind) =>
      var c :- ParseFloatConstraints(toF64, options, path);
      Success(TypeExpr.Primitive(PrimitiveType.Float(c)))
    case Some(StringKind) =>
      var c :- ParseStringConstraints(options, path);
      Success(TypeExpr.Primitive(PrimitiveType.String(c)))
    case Some(SymbolKind) => Success(TypeExpr.Primitive(PrimitiveType.Symbol))
    case Some(EnumKind) => ParseEnumType(None, options, path)
    case Some(ListKind) => ParseListType(toF64, None, options, path)
    case Some(DictKind) => ParseDictType(toF64, None, options, path)
    case Some(OptionalKind) => ParseOptionalType(toF64, options, path)
    case Some(StructKind) => ParseStructType(toF64, options, path)
    case None => Invalid(path, UnknownType(Lowercase(name)))
  }

  /** Array spellings. The tag is compared as written; any other tag is taken
      for a type name, and what follows it is ignored. */
  function ParseArrayType(toF64: int -> F64, items: seq<Json>, fieldOptions: Option<Members>, path: string)
    : (r: Parsed<TypeExpr>)
    ensures r.Success? ==> EnumsProper(r.value)
    ensures r.Success? && ConvertsFinitely(toF64) ==> BoundsFinite(r.value)
    decreases Weight(JArray(items)) + Load(fieldOptions), 2
  {
    if items == [] then Invalid(path, EmptyArrayType)
    else if !items[0].JString? then Invalid(path, UntaggedArrayType)
    else
      ArrayFits(items, fieldOptions);
      var trailing := MergeOptions(AsObject(ItemAt(items, 2)), fieldOptions);
      match ArrayKind(items[0].s)
      case Some(OptionalKind) =>
        if |items| < 2 then Invalid(path, MissingInnerType("optional"))
        else
          var inner :- ParseTypeExpr(toF64, items[1], fieldOptions, path + ".optional");
          Success(TypeExpr.Optional(inner))
      case Some(ListKind) =>
        if |items| < 2 then Invalid(path, MissingInnerType("list"))
        else ParseListType(toF64, Some(items[1]), trailing, path)
      case Some(DictKind) =>
        if |items| < 2 then Invalid(path, MissingInnerType("dict"))
        else ParseDictType(toF64, Some(items[1]), trailing, path)
      case Some(EnumKind) =>
        ParseEnumType(ItemAt(items, 1), MergeOptions(fieldOptions, None), path)
      case Some(StructKind) =>
        ParseStructType(toF64, MergeOptions(AsObject(ItemAt(items, 1)), fieldOptions), path)
      case _ => ParseNamedType(toF64, items[0].s, None, fieldOptions, path)
  }

  function ParseListType(toF64: int -> F64, inlineType: Option<Json>, options: Members, path: string)
    : (r: Parsed<TypeExpr>)
    ensures r.Success? ==> EnumsProper(r.value)
    ensures r.Success? && ConvertsFinitely(toF64) ==> BoundsFinite(r.value)
    decreases Whole(inlineType) + Load(Some(options)) + 1, 1
  {
    LookupWeight(options, "of");
    LookupWeight(options, "item");
    match OrElse(inlineType, OrElse(Lookup(options, "of"), Lookup(options, "item")))
    case None => Invalid(path, MissingInnerType("list"))
    case Some(value) =>
      var element :- ParseTypeExpr(toF64, value, None, path + ".of");
      var constraints :- ParseCollectionConstraints(options, path);
      Success(TypeExpr.List(element, constraints))
  }

  function ParseDictType(toF64: int -> F64, inlineType: Option<Json>, options: Members, path: string)
    : (r: Parsed<TypeExpr>)
    ensures r.Success? ==> EnumsProper(r.value)
    ensures r.Success? && ConvertsFinitely(toF64) ==> BoundsFinite(r.value)
    decreases Whole(inlineType) + Load(Some(options)) + 1, 1
  {
    LookupWeight(options, "values");
    LookupWeight(options, "value");
    match OrElse(inlineType, OrElse(Lookup(options, "values"), Lookup(options, "value")))
    case None => Invalid(path, MissingInnerType("dict"))
    case Some(value) =>
      var element :- ParseTypeExpr(toF64, value, None, path + ".values");
      var constraints :- ParseCollectionConstraints(options, path);
      Success(TypeExpr.Dict(element, constraints))
  }

  function ParseOptionalType(toF64: int -> F64, options: Members, path: string): (r: Parsed<TypeExpr>)
    ensures r.Success? ==> EnumsProper(r.value)
    ensures r.Success? && ConvertsFinitely(toF64) ==> BoundsFinite(r.value)
    decreases Load(Some(options)) + 1, 1
  {
    LookupWeight(options, "of");
    match Lookup(options, "of")
    case None => Invalid(path, MissingInnerType("optional"))
    case Some(value) =>
      var inner :- ParseTypeExpr(toF64, value, None, path + ".of");
      Success(TypeExpr.Optional(inner))
  }

  function ParseStructType(toF64: int -> F64, options: Members, path: string): (r: Parsed<TypeExpr>)
    ensures r.Success? ==> EnumsProper(r.value)
    ensures r.Success? && ConvertsFinitely(toF64) ==> BoundsFinite(r.value)
    decreases Load(Some(options)) + 1, 1
  {
    LookupWeight(options, "fields");
    match Lookup(options, "fields")
    case None => Invalid(path, MissingFields)
    case Some(value) =>
      var extra :- ParseExtra(Lookup(options, "extra"), path);
      if !value.JArray? then Invalid(path, FieldsNotArray)
      else
        var fields :- ParseFields(toF64, value.items, path, |value.items|);
        Success(TypeExpr.Struct(fields, extra))
  }

  /** The first `n` field entries; the first bad one decides the error. */
  function ParseFields(toF64: int -> F64, items: seq<Json>, path: string, n: nat): (r: Parsed<seq<FieldExpr>>)
    requires n <= |items|
    ensures r.Success? ==> |r.value| == n && forall i | 0 <= i < n :: EnumsProper(r.value[i].ty)
    ensures r.Success? && ConvertsFinitely(toF64) ==> forall i | 0 <= i < n :: BoundsFinite(r.value[i].ty)
    decreases Weight(JArray(items)), 0, n
  {
    if n == 0 then Success([])
    else
      var front :- ParseFields(toF64, items, path, n - 1);
      WeightItem(items, n - 1);
      var field :- ParseFieldEntry(toF64, items[n - 1], path + ".fields[" + Decimal(n - 1) + "]");
      Success(front + [field])
  }

  function ParseFieldEntry(toF64: int -> F64, value: Json, path: string): (r: Parsed<FieldExpr>)
    ensures r.Success? ==> EnumsProper(r.value.ty)
    ensures r.Success? && ConvertsFinitely(toF64) ==> BoundsFinite(r.value.ty)
    decreases Weight(value), 0
  {
    if !value.JArray? then Invalid(path, FieldNotArray)
    else if |value.items| < 3 then Invalid(path, FieldTooShort)
    else if !value.items[0].JString? then Invalid(path, PresenceNotString)
    else if value.items[0].s !in {"required", "optional"} then
      Invalid(path, UnsupportedPresence(value.items[0].s))
    else if !value.items[1].JString? then Invalid(path, NameNotString)
    else
      var presence := if value.items[0].s == "required" then FieldPresence.Required else FieldPresence.Optional;
      ArrayWeight(value.items, 2, 3);
      var ty :- ParseTypeExpr(toF64, value.items[2], AsObject(ItemAt(value.items, 3)), path + ".type");
      Success(FieldExpr(value.items[1].s, presence, ty))
  }

  function ParseDocument(toF64: int -> F64, value: Json): Parsed<TypeExpr> {
    ParseTypeExpr(toF64, value, None, "$")
  }

  method CollectVariants(items: seq<Json>, path: string) returns (r: Parsed<TypeExpr>)
    ensures r == ParseVariants(items, path)
  {
    ghost var texts := VariantTexts(items, path);
    var seen: set<string> := {};
    var variants := [];
    ghost var names: seq<string> := [];
    for n := 0 to |items|
      invariant Gather(texts, n) == Success(names) && |names| == n
      invariant variants == Dedup(names, n)
      invariant forall s :: s in seen <==> s in variants
    {
      if !items[n].JString? {
        GatherFails(texts, n, |items|);
        return Invalid(path + ".values[" + Decimal(n) + "]", ValueNotString);
      }
      DedupSnoc(names, items[n].s);
      if items[n].s !in seen {
        seen := seen + {items[n].s};
        variants := variants + [items[n].s];
      }
      names := names + [items[n].s];
    }
    DedupMembers(names, |names|);
    assert items != [] ==> names[0] in names[..|names|];
    r := if variants == [] then Invalid(path, EmptyValues) else Success(TypeExpr.Enum(variants));
  }

  lemma {:induction false} DedupPrefix(names: seq<string>, last: string, n: nat)
    requires n <= |names|
    ensures Dedup(names + [last], n) == Dedup(names, n)
  {
    if n > 0 {
      DedupPrefix(names, last, n - 1);
    }
  }

  lemma DedupSnoc(names: seq<string>, last: string)
    ensures var front := Dedup(names, |names|);
            Dedup(names + [last], |names| + 1) == if last in front then front else front + [last]
  {
    DedupPrefix(names, last, |names|);
  }

  method ParseFieldsArray(toF64: int -> F64, value: Json, path: string) returns (r: Parsed<seq<FieldExpr>>)
    ensures r == if value.JArray? then ParseFields(toF64, value.items, path, |value.items|)
                 else Invalid(path, FieldsNotArray)
  {
    if !value.JArray? {
      return Invalid(path, FieldsNotArray);
    }
    var fields := [];
    for n := 0 to |value.items|
      invariant ParseFields(toF64, value.items, path, n) == Success(fields)
    {
      var field := ParseFieldEntry(toF64, value.items[n], path + ".fields[" + Decimal(n) + "]");
      if field.Failure? {
        FieldsFail(toF64, value.items, path, n, |value.items|);
        return Failure(field.error);
      }
      fields := fields + [field.value];
    }
    r := Success(fields);
  }

  lemma {:induction false} FieldsFail(toF64: int -> F64, items: seq<Json>, path: string, k: nat, n: nat)
    requires k < n <= |items| && ParseFields(toF64, items, path, k).Success?
    requires ParseFieldEntry(toF64, items[k], path + ".fields[" + Decimal(k) + "]").Failure?
    ensures ParseFields(toF64, items, path, n)
         == Failure(ParseFieldEntry(toF64, items[k], path + ".fields[" + Decimal(k) + "]").error)
  {
    if k < n - 1 {
      FieldsFail(toF64, items, path, k, n - 1);
    }
  }

  /** Where a name first stands. */
  function FirstIndex(names: seq<string>, s: string): (i: nat)
    requires s in names
    ensures i < |names| && names[i] == s && s !in names[..i]
  {
    if names[0] == s then 0
    else
      var i := FirstIndex(names[1..], s) + 1;
      assert names[..i] == [names[0]] + names[1..][..i - 1];
      i
  }

  lemma FirstIndexIs(names: seq<string>, k: nat)
    requires k < |names| && names[k] !in names[..k]
    ensures FirstIndex(names, names[k]) == k
  {
    var i := FirstIndex(names, names[k]);
  }

  lemma FirstIndexBelow(names: seq<string>, s: string, m: nat)
    requires m <= |names| && s in names[..m]
    ensures s in names && FirstIndex(names, s) < m
  {
    var j :| 0 <= j < m && names[j] == s;
    var i := FirstIndex(names, s);
  }

  /** Deduplication keeps the order of first occurrences. */
  lemma {:induction false} DedupOrder(names: seq<string>, n: nat)
    requires n <= |names|
    ensures forall s | s in Dedup(names, n) :: s in names
    ensures forall i, j | 0 <= i < j < |Dedup(names, n)| ::
              FirstIndex(names, Dedup(names, n)[i]) < FirstIndex(names, Dedup(names, n)[j])
  {
    if n > 0 {
      DedupOrder(names, n - 1);
      DedupMembers(names, n - 1);
      var front := Dedup(names, n - 1);
      if names[n - 1] !in front {
        FirstIndexIs(names, n - 1);
        forall i | 0 <= i < |front| ensures FirstIndex(names, front[i]) < n - 1 {
          assert front[i] in names[..n - 1];
          FirstIndexBelow(names, front[i], n - 1);
        }
      }
    }
  }

  /** An enum parses exactly from a non-empty array of strings; it then lists
      those strings, each once, in the order of first occurrence. */
  lemma EnumKeepsMembers(items: seq<Json>, path: string)
    ensures ParseVariants(items, path).Success?
       <==> items != [] && forall i | 0 <= i < |items| :: items[i].JString?
    ensures ParseVariants(items, path).Success? ==>
              var names := seq(|items|, i requires 0 <= i < |items| => if items[i].JString? then items[i].s else "");
              var ty := ParseVariants(items, path).value;
              && ty.Enum?
              && (forall s :: s in ty.variants <==> s in names)
              && Distinct(ty.variants)
              && forall i, j | 0 <= i < j < |ty.variants| ::
                   FirstIndex(names, ty.variants[i]) < FirstIndex(names, ty.variants[j])
  {
    var texts := VariantTexts(items, path);
    assert forall i | 0 <= i < |items| :: texts[i].Success? <==> items[i].JString?;
    GatherExact(texts, |items|);
    if Gather(texts, |items|).Success? {
      GatherSuccess(texts, |items|);
      var names := seq(|items|, i requires 0 <= i < |items| => if items[i].JString? then items[i].s else "");
      assert Gather(texts, |items|).value == names;
      DedupMembers(names, |names|);
      assert names[..|names|] == names;
      DedupOrder(names, |names|);
    }
  }
}
