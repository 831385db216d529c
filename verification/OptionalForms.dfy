/** Exactly when the two spellings of an optional agree: the array spelling
    lets the field options sway the inner type, the object spelling does not. */
module OptionalForms {
  import opened Wrappers
  import opened Values
  import opened Schema
  import opened Json
  import opened SchemaParser
  import opened SurfaceForms
  import opened WellFormed

  const SizeKeys: set<string> := {"min_size", "max_size"}

  /** Some of these options are given and not overridden inline. */
  predicate Adds(own: set<string>, inline: Members, options: Members) {
    !(options.Keys * own <= inline.Keys)
  }

  /** No extras policy means forbid. */
  predicate AddsExtra(inline: Members, options: Members) {
    "extra" in options && "extra" !in inline && options["extra"] != JString("forbid")
  }

  /** The option `first` is given and, not being overridden inline, displaces
      the inline `second` by something that parses differently. */
  ghost predicate Displaces(parse: Json -> Parsed<TypeExpr>, first: string, second: string, inline: Members,
                            options: Members) {
    && first in options && first !in inline && second in inline
    && !Same(parse(options[first]), parse(inline[second]))
  }

  function ParseAlone(toF64: int -> F64): Json -> Parsed<TypeExpr> {
    (j: Json) => ParseTypeExpr(toF64, j, None, "")
  }

  function ParseValues(j: Json): Parsed<TypeExpr> {
    if j.JArray? then ParseVariants(j.items, "") else Invalid("", ValuesNotArray)
  }

  /** A named type with these inline options changes under these field options. */
  ghost predicate NamedSwayed(toF64: int -> F64, name: string, inline: Members, options: Members) {
    match NamedKind(Lowercase(name))
    case Some(IntKind) => Adds({"min", "max"}, inline, options)
    case Some(FloatKind) => Adds({"min", "max"}, inline, options)
    case Some(StringKind) => Adds({"min_size", "max_size", "format"}, inline, options)
    case Some(EnumKind) => Displaces(ParseValues, "values", "in", inline, options)
    case Some(ListKind) =>
      Displaces(ParseAlone(toF64), "of", "item", inline, options) || Adds(SizeKeys, inline, options)
    case Some(DictKind) =>
      Displaces(ParseAlone(toF64), "values", "value", inline, options) || Adds(SizeKeys, inline, options)
    case Some(StructKind) => AddsExtra(inline, options)
    case _ => false
  }

  function Inline(value: Option<Json>): Members {
    match AsObject(value)
    case Some(members) => members
    case None => map[]
  }

  /** A type expression changes under these field options. */
  ghost predicate Swayed(toF64: int -> F64, ty: Json, options: Members)
    decreases ty
  {
    match ty
    case JString(name) => NamedSwayed(toF64, name, map[], options)
    case JObject(members) =>
      && "type" in members && members["type"].JString?
      && NamedSwayed(toF64, members["type"].s, InlineWithoutType(members), options)
    case JArray(items) =>
      && items != [] && items[0].JString?
      && (match ArrayKind(items[0].s)
          case Some(OptionalKind) => |items| >= 2 && Swayed(toF64, items[1], options)
          case Some(ListKind) => Adds(SizeKeys, Inline(ItemAt(items, 2)), options)
          case Some(DictKind) => Adds(SizeKeys, Inline(ItemAt(items, 2)), options)
          case Some(EnumKind) => false
          case Some(StructKind) => AddsExtra(Inline(ItemAt(items, 1)), options)
          case _ => NamedSwayed(toF64, items[0].s, map[], options))
    case _ => false
  }

  lemma LookupMerged(inline: Members, options: Members, key: string)
    ensures Lookup(MergeOptions(Some(inline), Some(options)), key) == OrElse(Lookup(inline, key), Lookup(options, key))
    ensures MergeOptions(Some(inline), None) == inline
  {
  }

  lemma IntsSwayed(inline: Members, options: Members, p: string, q: string)
    requires ParseIntConstraints(inline, q).Success?
    ensures Same(ParseIntConstraints(MergeOptions(Some(inline), Some(options)), p), ParseIntConstraints(inline, q))
       <==> !Adds({"min", "max"}, inline, options)
  {
    LookupMerged(inline, options, "min");
    LookupMerged(inline, options, "max");
  }

  lemma FloatsSwayed(toF64: int -> F64, inline: Members, options: Members, p: string, q: string)
    requires ParseFloatConstraints(toF64, inline, q).Success?
    ensures Same(ParseFloatConstraints(toF64, MergeOptions(Some(inline), Some(options)), p),
                 ParseFloatConstraints(toF64, inline, q))
       <==> !Adds({"min", "max"}, inline, options)
  {
    LookupMerged(inline, options, "min");
    LookupMerged(inline, options, "max");
  }

  lemma SizesSwayed(inline: Members, options: Members, p: string, q: string)
    requires ParseCollectionConstraints(inline, q).Success?
    ensures Same(ParseCollectionConstraints(MergeOptions(Some(inline), Some(options)), p),
                 ParseCollectionConstraints(inline, q))
       <==> !Adds(SizeKeys, inline, options)
  {
    LookupMerged(inline, options, "min_size");
    LookupMerged(inline, options, "max_size");
  }

  lemma StringsSwayed(inline: Members, options: Members, p: string, q: string)
    requires ParseStringConstraints(inline, q).Success?
    ensures Same(ParseStringConstraints(MergeOptions(Some(inline), Some(options)), p),
                 ParseStringConstraints(inline, q))
       <==> !Adds({"min_size", "max_size", "format"}, inline, options)
  {
    LookupMerged(inline, options, "min_size");
    LookupMerged(inline, options, "max_size");
    LookupMerged(inline, options, "format");
  }

  /** `Same` is an equivalence, and alone a place does not matter to it. */
  lemma SameAnywhere(toF64: int -> F64, a: Json, b: Json, p: string, q: string)
    ensures Same(ParseTypeExpr(toF64, a, None, p), ParseTypeExpr(toF64, b, None, q))
       <==> Same(ParseAlone(toF64)(a), ParseAlone(toF64)(b))
  {
    PathOnlyInErrors(toF64, a, None, None, p, "");
    PathOnlyInErrors(toF64, b, None, None, q, "");
  }

  /** Two lists parse alike, one of them successfully, if their parts do. */
  lemma ListParts(toF64: int -> F64, a: Option<Json>, b: Option<Json>, more: Members, less: Members,
                  p: string, q: string)
    requires ParseListType(toF64, b, less, q).Success?
    requires ListSource(a, more).Some?
    ensures ListSource(b, less).Some?
    ensures ParseCollectionConstraints(less, q).Success?
    ensures Same(ParseListType(toF64, a, more, p), ParseListType(toF64, b, less, q))
       <==> && Same(ParseAlone(toF64)(ListSource(a, more).value), ParseAlone(toF64)(ListSource(b, less).value))
            && Same(ParseCollectionConstraints(more, p), ParseCollectionConstraints(less, q))
  {
    SameAnywhere(toF64, ListSource(a, more).value, ListSource(b, less).value, p + ".of", q + ".of");
  }

  function ListSource(inlineType: Option<Json>, options: Members): Option<Json> {
    OrElse(inlineType, OrElse(Lookup(options, "of"), Lookup(options, "item")))
  }

  function DictSource(inlineType: Option<Json>, options: Members): Option<Json> {
    OrElse(inlineType, OrElse(Lookup(options, "values"), Lookup(options, "value")))
  }

  lemma DictParts(toF64: int -> F64, a: Option<Json>, b: Option<Json>, more: Members, less: Members,
                  p: string, q: string)
    requires ParseDictType(toF64, b, less, q).Success?
    requires DictSource(a, more).Some?
    ensures DictSource(b, less).Some?
    ensures ParseCollectionConstraints(less, q).Success?
    ensures Same(ParseDictType(toF64, a, more, p), ParseDictType(toF64, b, less, q))
       <==> && Same(ParseAlone(toF64)(DictSource(a, more).value), ParseAlone(toF64)(DictSource(b, less).value))
            && Same(ParseCollectionConstraints(more, p), ParseCollectionConstraints(less, q))
  {
    SameAnywhere(toF64, DictSource(a, more).value, DictSource(b, less).value, p + ".values", q + ".values");
  }

  lemma ListSwayed(toF64: int -> F64, inline: Members, options: Members, p: string, q: string)
    requires ParseListType(toF64, None, inline, q).Success?
    ensures Same(ParseListType(toF64, None, MergeOptions(Some(inline), Some(options)), p),
                 ParseListType(toF64, None, inline, q))
       <==> !(Displaces(ParseAlone(toF64), "of", "item", inline, options) || Adds(SizeKeys, inline, options))
  {
    var merged := MergeOptions(Some(inline), Some(options));
    LookupMerged(inline, options, "of");
    LookupMerged(inline, options, "item");
    ListParts(toF64, None, None, merged, inline, p, q);
    SizesSwayed(inline, options, p, q);
  }

  lemma DictSwayed(toF64: int -> F64, inline: Members, options: Members, p: string, q: string)
    requires ParseDictType(toF64, None, inline, q).Success?
    ensures Same(ParseDictType(toF64, None, MergeOptions(Some(inline), Some(options)), p),
                 ParseDictType(toF64, None, inline, q))
       <==> !(Displaces(ParseAlone(toF64), "values", "value", inline, options) || Adds(SizeKeys, inline, options))
  {
    var merged := MergeOptions(Some(inline), Some(options));
    LookupMerged(inline, options, "values");
    LookupMerged(inline, options, "value");
    DictParts(toF64, None, None, merged, inline, p, q);
    SizesSwayed(inline, options, p, q);
  }

  lemma EnumSwayed(inline: Members, options: Members, p: string, q: string)
    requires ParseEnumType(None, inline, q).Success?
    ensures Same(ParseEnumType(None, MergeOptions(Some(inline), Some(options)), p), ParseEnumType(None, inline, q))
       <==> !Displaces(ParseValues, "values", "in", inline, options)
  {
    LookupMerged(inline, options, "values");
    LookupMerged(inline, options, "in");
    var source := OrElse(Lookup(inline, "values"), Lookup(inline, "in")).value;
    ValuesAnywhere(source, q);
    ValuesAnywhere(source, p);
    if "values" in options {
      ValuesAnywhere(options["values"], p);
    }
  }

  function ValuesAt(j: Json, path: string): Parsed<TypeExpr> {
    if j.JArray? then ParseVariants(j.items, path) else Invalid(path, ValuesNotArray)
  }

  lemma ValuesAnywhere(j: Json, path: string)
    ensures Same(ValuesAt(j, path), ParseValues(j))
  {
    if j.JArray? {
      TextsSame(j.items, path, "", |j.items|);
    }
  }

  lemma StructSwayed(toF64: int -> F64, inline: Members, options: Members, p: string, q: string)
    requires ParseStructType(toF64, inline, q).Success?
    ensures Same(ParseStructType(toF64, MergeOptions(Some(inline), Some(options)), p), ParseStructType(toF64, inline, q))
       <==> !AddsExtra(inline, options)
  {
    LookupMerged(inline, options, "fields");
    LookupMerged(inline, options, "extra");
    var items := inline["fields"].items;
    FieldsSame(toF64, items, p, q, |items|);
  }

  /** A named type with inline options, with and without the field options. */
  lemma NamedIsSwayed(toF64: int -> F64, name: string, inline: Members, options: Members, p: string, q: string)
    requires ParseNamedType(toF64, name, Some(inline), None, q).Success?
    ensures Same(ParseNamedType(toF64, name, Some(inline), Some(options), p),
                 ParseNamedType(toF64, name, Some(inline), None, q))
       <==> !NamedSwayed(toF64, name, inline, options)
  {
    LookupMerged(inline, options, "of");
    match NamedKind(Lowercase(name))
    case Some(IntKind) => IntsSwayed(inline, options, p, q);
    case Some(FloatKind) => FloatsSwayed(toF64, inline, options, p, q);
    case Some(StringKind) => StringsSwayed(inline, options, p, q);
    case Some(EnumKind) => EnumSwayed(inline, options, p, q);
    case Some(ListKind) => ListSwayed(toF64, inline, options, p, q);
    case Some(DictKind) => DictSwayed(toF64, inline, options, p, q);
    case Some(OptionalKind) => SameAnywhere(toF64, inline["of"], inline["of"], p + ".of", q + ".of");
    case Some(StructKind) => StructSwayed(toF64, inline, options, p, q);
    case _ =>
  }

  /** A bare name is a name with no inline options. */
  lemma BareIsNamed(toF64: int -> F64, name: string, options: Option<Members>, path: string)
    ensures ParseNamedType(toF64, name, None, options, path) == ParseNamedType(toF64, name, Some(map[]), options, path)
  {
    assert MergeOptions(None, options) == MergeOptions(Some(map[]), options);
  }

  lemma InlineIsMerged(value: Option<Json>, options: Option<Members>)
    ensures MergeOptions(AsObject(value), options) == MergeOptions(Some(Inline(value)), options)
  {
  }

  lemma ListArraySwayed(toF64: int -> F64, items: seq<Json>, options: Members, p: string, q: string)
    requires |items| >= 2 && items[0].JString? && ArrayKind(items[0].s) == Some(ListKind)
    requires ParseArrayType(toF64, items, None, q).Success?
    ensures Same(ParseArrayType(toF64, items, Some(options), p), ParseArrayType(toF64, items, None, q))
       <==> !Adds(SizeKeys, Inline(ItemAt(items, 2)), options)
  {
    var inline := Inline(ItemAt(items, 2));
    ArrayParsesList(toF64, items, Some(options), p);
    ArrayParsesList(toF64, items, None, q);
    InlineIsMerged(ItemAt(items, 2), Some(options));
    InlineIsMerged(ItemAt(items, 2), None);
    LookupMerged(inline, options, "of");
    ListParts(toF64, Some(items[1]), Some(items[1]), MergeOptions(Some(inline), Some(options)), inline, p, q);
    SizesSwayed(inline, options, p, q);
  }

  lemma DictArraySwayed(toF64: int -> F64, items: seq<Json>, options: Members, p: string, q: string)
    requires |items| >= 2 && items[0].JString? && ArrayKind(items[0].s) == Some(DictKind)
    requires ParseArrayType(toF64, items, None, q).Success?
    ensures Same(ParseArrayType(toF64, items, Some(options), p), ParseArrayType(toF64, items, None, q))
       <==> !Adds(SizeKeys, Inline(ItemAt(items, 2)), options)
  {
    var inline := Inline(ItemAt(items, 2));
    ArrayParsesDict(toF64, items, Some(options), p);
    ArrayParsesDict(toF64, items, None, q);
    InlineIsMerged(ItemAt(items, 2), Some(options));
    InlineIsMerged(ItemAt(items, 2), None);
    LookupMerged(inline, options, "values");
    DictParts(toF64, Some(items[1]), Some(items[1]), MergeOptions(Some(inline), Some(options)), inline, p, q);
    SizesSwayed(inline, options, p, q);
  }

  lemma StructArraySwayed(toF64: int -> F64, items: seq<Json>, options: Members, p: string, q: string)
    requires items != [] && items[0].JString? && ArrayKind(items[0].s) == Some(StructKind)
    requires ParseArrayType(toF64, items, None, q).Success?
    ensures Same(ParseArrayType(toF64, items, Some(options), p), ParseArrayType(toF64, items, None, q))
       <==> !AddsExtra(Inline(ItemAt(items, 1)), options)
  {
    var inline := Inline(ItemAt(items, 1));
    ArrayParsesStruct(toF64, items, Some(options), p);
    ArrayParsesStruct(toF64, items, None, q);
    InlineIsMerged(ItemAt(items, 1), Some(options));
    InlineIsMerged(ItemAt(items, 1), None);
    LookupMerged(inline, options, "fields");
    StructSwayed(toF64, inline, options, p, q);
  }

  /** The values beside the tag come before any from the field options. */
  lemma EnumArrayFixed(toF64: int -> F64, items: seq<Json>, options: Members, p: string, q: string)
    requires items != [] && items[0].JString? && ArrayKind(items[0].s) == Some(EnumKind)
    requires ParseArrayType(toF64, items, None, q).Success?
    ensures Same(ParseArrayType(toF64, items, Some(options), p), ParseArrayType(toF64, items, None, q))
  {
    MergeOne(options);
    assert |items| >= 2;
    ValuesAnywhere(items[1], p);
    ValuesAnywhere(items[1], q);
  }

  lemma NamedArraySwayed(toF64: int -> F64, items: seq<Json>, options: Members, p: string, q: string)
    requires items != [] && items[0].JString? && ArrayKind(items[0].s).None?
    requires ParseArrayType(toF64, items, None, q).Success?
    ensures Same(ParseArrayType(toF64, items, Some(options), p), ParseArrayType(toF64, items, None, q))
       <==> !NamedSwayed(toF64, items[0].s, map[], options)
  {
    BareIsNamed(toF64, items[0].s, Some(options), p);
    BareIsNamed(toF64, items[0].s, None, q);
    NamedIsSwayed(toF64, items[0].s, map[], options, p, q);
  }

  lemma ArrayParsesOptional(toF64: int -> F64, items: seq<Json>, options: Option<Members>, path: string)
    requires |items| >= 2 && items[0].JString? && ArrayKind(items[0].s) == Some(OptionalKind)
    ensures ParseArrayType(toF64, items, options, path)
         == Wrap(ParseTypeExpr(toF64, items[1], options, path + ".optional"))
  {
  }

  lemma {:induction false} ArraySwayed(toF64: int -> F64, items: seq<Json>, options: Members, p: string, q: string)
    requires ParseArrayType(toF64, items, None, q).Success?
    ensures Same(ParseArrayType(toF64, items, Some(options), p), ParseArrayType(toF64, items, None, q))
       <==> !Swayed(toF64, JArray(items), options)
    decreases JArray(items), 0
  {
    assert items != [] && items[0].JString?;
    match ArrayKind(items[0].s)
    case None => NamedArraySwayed(toF64, items, options, p, q);
    case Some(kind) =>
      match kind
      case OptionalKind =>
        ArrayParsesOptional(toF64, items, Some(options), p);
        ArrayParsesOptional(toF64, items, None, q);
        ExpressionSwayed(toF64, items[1], options, p + ".optional", q + ".optional");
      case ListKind => ListArraySwayed(toF64, items, options, p, q);
      case DictKind => DictArraySwayed(toF64, items, options, p, q);
      case EnumKind => EnumArrayFixed(toF64, items, options, p, q);
      case StructKind => StructArraySwayed(toF64, items, options, p, q);
  }

  /** A type expression that parses by itself parses to the same under field
      options exactly if these do not sway it. */
  lemma {:induction false} ExpressionSwayed(toF64: int -> F64, ty: Json, options: Members, p: string, q: string)
    requires ParseTypeExpr(toF64, ty, None, q).Success?
    ensures Same(ParseTypeExpr(toF64, ty, Some(options), p), ParseTypeExpr(toF64, ty, None, q))
       <==> !Swayed(toF64, ty, options)
    decreases ty, 1
  {
    match ty
    case JString(name) =>
      BareIsNamed(toF64, name, Some(options), p);
      BareIsNamed(toF64, name, None, q);
      NamedIsSwayed(toF64, name, map[], options, p, q);
    case JObject(members) =>
      NamedIsSwayed(toF64, members["type"].s, InlineWithoutType(members), options, p, q);
    case JArray(items) => ArraySwayed(toF64, items, options, p, q);
  }

  /** For every inner type that parses by itself, the two spellings of its
      optional agree exactly if the field options do not sway it. */
  lemma CompleteOptionalsAgree(toF64: int -> F64, of: Json, options: Members, path: string)
    requires ParseTypeExpr(toF64, of, None, path).Success?
    ensures Same(ParseTypeExpr(toF64, JArray([JString("optional"), of]), Some(options), path),
                 ParseTypeExpr(toF64, ObjectForm("optional", "of", of, map[]), Some(options), path))
       <==> !Swayed(toF64, of, options)
  {
    OptionalSpellings(toF64, of, Some(options), path);
    PathOnlyInErrors(toF64, of, None, None, path, path + ".of");
    ExpressionSwayed(toF64, of, options, path + ".optional", path + ".of");
  }

  /** The same type, or an error on both sides. */
  predicate SameType(a: Parsed<TypeExpr>, b: Parsed<TypeExpr>) {
    if a.Success? then a == b else b.Failure?
  }

  /** For every inner type: if it is well formed by itself, the spellings of its
      optional agree exactly if the field options do not sway it; if it is not,
      exactly if the field options do not complete it. */
  lemma OptionalsAgreeExactly(toF64: int -> F64, of: Json, options: Members, path: string)
    ensures SameType(ParseTypeExpr(toF64, JArray([JString("optional"), of]), Some(options), path),
                     ParseTypeExpr(toF64, ObjectForm("optional", "of", of, map[]), Some(options), path))
       <==> if TypeOk(of, map[]) then !Swayed(toF64, of, options) else !TypeOk(of, options)
  {
    MergeOne(options);
    OptionalSpellings(toF64, of, Some(options), path);
    ParsesIfOk(toF64, of, None, path + ".of");
    ParsesIfOk(toF64, of, Some(options), path + ".optional");
    if TypeOk(of, map[]) {
      ExpressionSwayed(toF64, of, options, path + ".optional", path + ".of");
    }
  }

  lemma ListOfAnyOk()
    ensures !TypeOk(JString("list"), map[]) && TypeOk(JString("list"), map["of" := JString("any")])
  {
    assert Lowercase("list") == "list" && Lowercase("any") == "any";
    assert TypeOk(JString("any"), map[]);
  }

  /** An inner type that is completed by field options alone: a bare list with
      its element among them parses in the array spelling only. */
  lemma ListCompleted(toF64: int -> F64, path: string)
    ensures var of, options := JString("list"), map["of" := JString("any")];
            && !TypeOk(of, map[]) && TypeOk(of, options)
            && ParseTypeExpr(toF64, JArray([JString("optional"), of]), Some(options), path).Success?
            && ParseTypeExpr(toF64, ObjectForm("optional", "of", of, map[]), Some(options), path).Failure?
  {
    var of, options := JString("list"), map["of" := JString("any")];
    ListOfAnyOk();
    MergeOne(options);
    OptionalSpellings(toF64, of, Some(options), path);
    ParsesIfOk(toF64, of, None, path + ".of");
    ParsesIfOk(toF64, of, Some(options), path + ".optional");
  }

  /** A bare container or enum name is such an inner type. */
  lemma BareContainersIncomplete(toF64: int -> F64, name: string, path: string)
    requires NamedKind(Lowercase(name)) in {Some(EnumKind), Some(ListKind), Some(DictKind), Some(OptionalKind),
                                            Some(StructKind)}
    ensures ParseTypeExpr(toF64, JString(name), None, path).Failure?
  {
    assert MergeOptions(None, None) == map[];
  }
}
