/** The several spellings of one type parse alike. */
module SurfaceForms {
  import opened Wrappers
  import opened Values
  import opened Schema
  import opened Paths
  import opened Json
  import opened SchemaParser

  /** `{"type": tag, key: value, ..options}` */
  function ObjectForm(tag: string, key: string, value: Json, options: Members): Json {
    JObject(options[key := value]["type" := JString(tag)])
  }

  /** `[tag, value, {..options}]` */
  function ArrayForm(tag: string, value: Json, options: Members): Json {
    JArray([JString(tag), value, JObject(options)])
  }

  /** The field options that complete a bare type name. */
  function Completing(key: string, value: Json, options: Members, fieldOptions: Option<Members>): Option<Members> {
    Some(MergeOptions(Some(options[key := value]), fieldOptions))
  }

  lemma LowercaseTags()
    ensures Lowercase("list") == "list" && Lowercase("dict") == "dict" && Lowercase("enum") == "enum"
    ensures Lowercase("optional") == "optional" && Lowercase("struct") == "struct"
  {
  }

  lemma NamedList(toF64: int -> F64, inline: Option<Members>, fieldOptions: Option<Members>, path: string)
    ensures ParseNamedType(toF64, "list", inline, fieldOptions, path)
         == ParseListType(toF64, None, MergeOptions(inline, fieldOptions), path)
  {
    LowercaseTags();
  }

  lemma NamedDict(toF64: int -> F64, inline: Option<Members>, fieldOptions: Option<Members>, path: string)
    ensures ParseNamedType(toF64, "dict", inline, fieldOptions, path)
         == ParseDictType(toF64, None, MergeOptions(inline, fieldOptions), path)
  {
    LowercaseTags();
  }

  lemma NamedEnum(toF64: int -> F64, inline: Option<Members>, fieldOptions: Option<Members>, path: string)
    ensures ParseNamedType(toF64, "enum", inline, fieldOptions, path)
         == ParseEnumType(None, MergeOptions(inline, fieldOptions), path)
  {
    LowercaseTags();
  }

  lemma NamedOptional(toF64: int -> F64, inline: Option<Members>, fieldOptions: Option<Members>, path: string)
    ensures ParseNamedType(toF64, "optional", inline, fieldOptions, path)
         == ParseOptionalType(toF64, MergeOptions(inline, fieldOptions), path)
  {
    LowercaseTags();
  }

  lemma NamedStruct(toF64: int -> F64, inline: Option<Members>, fieldOptions: Option<Members>, path: string)
    ensures ParseNamedType(toF64, "struct", inline, fieldOptions, path)
         == ParseStructType(toF64, MergeOptions(inline, fieldOptions), path)
  {
    LowercaseTags();
  }

  lemma ObjectIsNamed(toF64: int -> F64, tag: string, key: string, value: Json, options: Members,
                      fieldOptions: Option<Members>, path: string)
    requires key != "type"
    ensures ParseTypeExpr(toF64, ObjectForm(tag, key, value, options), fieldOptions, path)
         == ParseNamedType(toF64, tag, Some((options - {"type"})[key := value]), fieldOptions, path)
  {
    assert InlineWithoutType(ObjectForm(tag, key, value, options).members) == (options - {"type"})[key := value];
  }

  /** What follows a list or dict may come inline or from the options. */
  lemma ListFrom(toF64: int -> F64, of: Json, a: Members, b: Members, path: string)
    requires Lookup(a, "of") == Some(of)
    requires Lookup(a, "min_size") == Lookup(b, "min_size") && Lookup(a, "max_size") == Lookup(b, "max_size")
    ensures ParseListType(toF64, None, a, path) == ParseListType(toF64, Some(of), b, path)
  {
    assert ParseCollectionConstraints(a, path) == ParseCollectionConstraints(b, path);
  }

  lemma DictFrom(toF64: int -> F64, of: Json, a: Members, b: Members, path: string)
    requires Lookup(a, "values") == Some(of)
    requires Lookup(a, "min_size") == Lookup(b, "min_size") && Lookup(a, "max_size") == Lookup(b, "max_size")
    ensures ParseDictType(toF64, None, a, path) == ParseDictType(toF64, Some(of), b, path)
  {
    assert ParseCollectionConstraints(a, path) == ParseCollectionConstraints(b, path);
  }

  lemma StructFrom(toF64: int -> F64, a: Members, b: Members, path: string)
    requires Lookup(a, "fields") == Lookup(b, "fields") && Lookup(a, "extra") == Lookup(b, "extra")
    ensures ParseStructType(toF64, a, path) == ParseStructType(toF64, b, path)
  {
  }

  lemma ArrayIsList(toF64: int -> F64, of: Json, options: Members, fieldOptions: Option<Members>, path: string)
    ensures ParseTypeExpr(toF64, ArrayForm("list", of, options), fieldOptions, path)
         == ParseListType(toF64, Some(of), MergeOptions(Some(options), fieldOptions), path)
  {
  }

  lemma ArrayIsDict(toF64: int -> F64, of: Json, options: Members, fieldOptions: Option<Members>, path: string)
    ensures ParseTypeExpr(toF64, ArrayForm("dict", of, options), fieldOptions, path)
         == ParseDictType(toF64, Some(of), MergeOptions(Some(options), fieldOptions), path)
  {
  }

  lemma ArrayIsStruct(toF64: int -> F64, options: Members, fieldOptions: Option<Members>, path: string)
    ensures ParseTypeExpr(toF64, JArray([JString("struct"), JObject(options)]), fieldOptions, path)
         == ParseStructType(toF64, MergeOptions(Some(options), fieldOptions), path)
  {
  }

  lemma ListObjectAsArray(toF64: int -> F64, of: Json, options: Members, fieldOptions: Option<Members>, path: string)
    ensures ParseTypeExpr(toF64, ObjectForm("list", "of", of, options), fieldOptions, path)
         == ParseTypeExpr(toF64, ArrayForm("list", of, options), fieldOptions, path)
  {
    var inline := (options - {"type"})["of" := of];
    ObjectIsNamed(toF64, "list", "of", of, options, fieldOptions, path);
    NamedList(toF64, Some(inline), fieldOptions, path);
    ArrayIsList(toF64, of, options, fieldOptions, path);
    ListFrom(toF64, of, MergeOptions(Some(inline), fieldOptions), MergeOptions(Some(options), fieldOptions), path);
  }

  lemma ListNameAsArray(toF64: int -> F64, of: Json, options: Members, fieldOptions: Option<Members>, path: string)
    ensures ParseTypeExpr(toF64, JString("list"), Completing("of", of, options, fieldOptions), path)
         == ParseTypeExpr(toF64, ArrayForm("list", of, options), fieldOptions, path)
  {
    var completing := Completing("of", of, options, fieldOptions);
    NamedList(toF64, None, completing, path);
    ArrayIsList(toF64, of, options, fieldOptions, path);
    ListFrom(toF64, of, MergeOptions(None, completing), MergeOptions(Some(options), fieldOptions), path);
  }

  /** A list, spelled as an array, as an object or as a bare name completed by
      its field options: the same result, error included. Inline options win
      over field options in all three. */
  lemma ListSpellingsAgree(toF64: int -> F64, of: Json, options: Members, fieldOptions: Option<Members>, path: string)
    ensures ParseTypeExpr(toF64, ObjectForm("list", "of", of, options), fieldOptions, path)
         == ParseTypeExpr(toF64, ArrayForm("list", of, options), fieldOptions, path)
         == ParseTypeExpr(toF64, JString("list"), Completing("of", of, options, fieldOptions), path)
  {
    ListObjectAsArray(toF64, of, options, fieldOptions, path);
    ListNameAsArray(toF64, of, options, fieldOptions, path);
  }

  lemma DictObjectAsArray(toF64: int -> F64, of: Json, options: Members, fieldOptions: Option<Members>, path: string)
    ensures ParseTypeExpr(toF64, ObjectForm("dict", "values", of, options), fieldOptions, path)
         == ParseTypeExpr(toF64, ArrayForm("dict", of, options), fieldOptions, path)
  {
    var inline := (options - {"type"})["values" := of];
    ObjectIsNamed(toF64, "dict", "values", of, options, fieldOptions, path);
    NamedDict(toF64, Some(inline), fieldOptions, path);
    ArrayIsDict(toF64, of, options, fieldOptions, path);
    DictFrom(toF64, of, MergeOptions(Some(inline), fieldOptions), MergeOptions(Some(options), fieldOptions), path);
  }

  lemma DictNameAsArray(toF64: int -> F64, of: Json, options: Members, fieldOptions: Option<Members>, path: string)
    ensures ParseTypeExpr(toF64, JString("dict"), Completing("values", of, options, fieldOptions), path)
         == ParseTypeExpr(toF64, ArrayForm("dict", of, options), fieldOptions, path)
  {
    var completing := Completing("values", of, options, fieldOptions);
    NamedDict(toF64, None, completing, path);
    ArrayIsDict(toF64, of, options, fieldOptions, path);
    DictFrom(toF64, of, MergeOptions(None, completing), MergeOptions(Some(options), fieldOptions), path);
  }

  lemma DictSpellingsAgree(toF64: int -> F64, of: Json, options: Members, fieldOptions: Option<Members>, path: string)
    ensures ParseTypeExpr(toF64, ObjectForm("dict", "values", of, options), fieldOptions, path)
         == ParseTypeExpr(toF64, ArrayForm("dict", of, options), fieldOptions, path)
         == ParseTypeExpr(toF64, JString("dict"), Completing("values", of, options, fieldOptions), path)
  {
    DictObjectAsArray(toF64, of, options, fieldOptions, path);
    DictNameAsArray(toF64, of, options, fieldOptions, path);
  }

  lemma EnumFrom(values: Json, a: Members, b: Members, path: string)
    requires Lookup(a, "values") == Some(values)
    ensures ParseEnumType(None, a, path) == ParseEnumType(Some(values), b, path)
  {
  }

  lemma ArrayIsEnum(toF64: int -> F64, values: Json, fieldOptions: Option<Members>, path: string)
    ensures ParseTypeExpr(toF64, JArray([JString("enum"), values]), fieldOptions, path)
         == ParseEnumType(Some(values), MergeOptions(fieldOptions, None), path)
  {
  }

  lemma EnumSpellingsAgree(toF64: int -> F64, values: Json, options: Members, fieldOptions: Option<Members>, path: string)
    ensures ParseTypeExpr(toF64, ObjectForm("enum", "values", values, options), fieldOptions, path)
         == ParseTypeExpr(toF64, JArray([JString("enum"), values]), fieldOptions, path)
         == ParseTypeExpr(toF64, JString("enum"), Completing("values", values, options, fieldOptions), path)
  {
    var inline := (options - {"type"})["values" := values];
    var completing := Completing("values", values, options, fieldOptions);
    ObjectIsNamed(toF64, "enum", "values", values, options, fieldOptions, path);
    NamedEnum(toF64, Some(inline), fieldOptions, path);
    NamedEnum(toF64, None, completing, path);
    ArrayIsEnum(toF64, values, fieldOptions, path);
    EnumFrom(values, MergeOptions(Some(inline), fieldOptions), MergeOptions(fieldOptions, None), path);
    EnumFrom(values, MergeOptions(None, completing), MergeOptions(fieldOptions, None), path);
  }

  lemma StructSpellingsAgree(toF64: int -> F64, fields: Json, options: Members, fieldOptions: Option<Members>,
                             path: string)
    ensures ParseTypeExpr(toF64, ObjectForm("struct", "fields", fields, options), fieldOptions, path)
         == ParseTypeExpr(toF64, JArray([JString("struct"), JObject(options["fields" := fields])]), fieldOptions, path)
         == ParseTypeExpr(toF64, JString("struct"), Completing("fields", fields, options, fieldOptions), path)
  {
    ObjectIsNamed(toF64, "struct", "fields", fields, options, fieldOptions, path);
    NamedStruct(toF64, Some((options - {"type"})["fields" := fields]), fieldOptions, path);
    NamedStruct(toF64, None, Completing("fields", fields, options, fieldOptions), path);
    ArrayIsStruct(toF64, options["fields" := fields], fieldOptions, path);
    var array' := MergeOptions(Some(options["fields" := fields]), fieldOptions);
    StructFrom(toF64, MergeOptions(Some((options - {"type"})["fields" := fields]), fieldOptions), array', path);
    StructFrom(toF64, MergeOptions(None, Completing("fields", fields, options, fieldOptions)), array', path);
  }

  function Wrap(r: Parsed<TypeExpr>): Parsed<TypeExpr> {
    match r
    case Success(ty) => Success(TypeExpr.Optional(ty))
    case Failure(e) => Failure(e)
  }

  /** The two spellings of an optional are not one: the array passes the field
      options on to the inner type, the object keeps them from it. */
  lemma OptionalSpellings(toF64: int -> F64, of: Json, fieldOptions: Option<Members>, path: string)
    ensures ParseTypeExpr(toF64, JArray([JString("optional"), of]), fieldOptions, path)
         == Wrap(ParseTypeExpr(toF64, of, fieldOptions, path + ".optional"))
    ensures ParseTypeExpr(toF64, ObjectForm("optional", "of", of, map[]), fieldOptions, path)
         == Wrap(ParseTypeExpr(toF64, of, None, path + ".of"))
  {
    var none: Members := map[];
    ObjectIsNamed(toF64, "optional", "of", of, none, fieldOptions, path);
    NamedOptional(toF64, Some((none - {"type"})["of" := of]), fieldOptions, path);
  }

  /** They do differ: a minimum given as field option reaches the inner integer
      only through the array spelling. */
  lemma OptionalSpellingsDiffer(toF64: int -> F64, path: string)
    ensures var fieldOptions := Some(map["min" := JNumber(Unsigned(1))]);
            var inner := JString("int");
            && ParseTypeExpr(toF64, JArray([JString("optional"), inner]), fieldOptions, path)
            == Success(TypeExpr.Optional(TypeExpr.Primitive(PrimitiveType.Int(IntConstraints(Some(1), None)))))
            && ParseTypeExpr(toF64, ObjectForm("optional", "of", inner, map[]), fieldOptions, path)
            == Success(TypeExpr.Optional(TypeExpr.Primitive(PrimitiveType.Int(IntConstraints(None, None)))))
  {
    var fieldOptions := Some(map["min" := JNumber(Unsigned(1))]);
    OptionalSpellings(toF64, JString("int"), fieldOptions, path);
    assert Lowercase("int") == "int";
    assert Lookup(MergeOptions(None, fieldOptions), "min") == Some(JNumber(Unsigned(1)));
  }

  /** The same result up to where an error says it is. */
  predicate Same<T(==)>(a: Parsed<T>, b: Parsed<T>) {
    match (a, b)
    case (Success(x), Success(y)) => x == y
    case (Failure(e), Failure(f)) => e.reason == f.reason
    case _ => false
  }

  /** Options that look alike to every type parser. */
  ghost predicate AlikeOptions(a: Members, b: Members) {
    forall key | key in {"min", "max", "min_size", "max_size", "format", "values", "in", "of", "item", "value",
                         "fields", "extra"} :: Lookup(a, key) == Lookup(b, key)
  }

  lemma OptionalIntSame(value: Option<Json>, p: string, q: string)
    ensures Same(Optionally(value, j => ParseI64(j, p)), Optionally(value, j => ParseI64(j, q)))
  {
  }

  lemma OptionalUsizeSame(value: Option<Json>, p: string, q: string)
    ensures Same(Optionally(value, j => ParseUsize(j, p)), Optionally(value, j => ParseUsize(j, q)))
  {
  }

  lemma OptionalFloatSame(toF64: int -> F64, value: Option<Json>, p: string, q: string)
    ensures Same(Optionally(value, j => ParseF64(toF64, j, p)), Optionally(value, j => ParseF64(toF64, j, q)))
  {
  }

  lemma OptionalFormatSame(value: Option<Json>, p: string, q: string)
    ensures Same(Optionally(value, j => ParseFormat(j, p)), Optionally(value, j => ParseFormat(j, q)))
  {
  }

  lemma IntsSame(a: Members, b: Members, p: string, q: string)
    requires AlikeOptions(a, b)
    ensures Same(ParseIntConstraints(a, p), ParseIntConstraints(b, q))
  {
    assert Lookup(a, "min") == Lookup(b, "min") && Lookup(a, "max") == Lookup(b, "max");
    OptionalIntSame(Lookup(a, "min"), p + ".min", q + ".min");
    OptionalIntSame(Lookup(a, "max"), p + ".max", q + ".max");
  }

  lemma FloatsSame(toF64: int -> F64, a: Members, b: Members, p: string, q: string)
    requires AlikeOptions(a, b)
    ensures Same(ParseFloatConstraints(toF64, a, p), ParseFloatConstraints(toF64, b, q))
  {
    assert Lookup(a, "min") == Lookup(b, "min") && Lookup(a, "max") == Lookup(b, "max");
    OptionalFloatSame(toF64, Lookup(a, "min"), p + ".min", q + ".min");
    OptionalFloatSame(toF64, Lookup(a, "max"), p + ".max", q + ".max");
  }

  lemma SizesSame(a: Members, b: Members, p: string, q: string)
    requires AlikeOptions(a, b)
    ensures Same(ParseCollectionConstraints(a, p), ParseCollectionConstraints(b, q))
  {
    assert Lookup(a, "min_size") == Lookup(b, "min_size") && Lookup(a, "max_size") == Lookup(b, "max_size");
    OptionalUsizeSame(Lookup(a, "min_size"), p + ".min_size", q + ".min_size");
    OptionalUsizeSame(Lookup(a, "max_size"), p + ".max_size", q + ".max_size");
  }

  lemma StringsSame(a: Members, b: Members, p: string, q: string)
    requires AlikeOptions(a, b)
    ensures Same(ParseStringConstraints(a, p), ParseStringConstraints(b, q))
  {
    assert Lookup(a, "min_size") == Lookup(b, "min_size") && Lookup(a, "max_size") == Lookup(b, "max_size");
    assert Lookup(a, "format") == Lookup(b, "format");
    OptionalUsizeSame(Lookup(a, "min_size"), p + ".min_size", q + ".min_size");
    OptionalUsizeSame(Lookup(a, "max_size"), p + ".max_size", q + ".max_size");
    OptionalFormatSame(Lookup(a, "format"), p + ".format", q + ".format");
  }

  lemma {:induction false} TextsSame(items: seq<Json>, p: string, q: string, n: nat)
    requires n <= |items|
    ensures Same(Gather(VariantTexts(items, p), n), Gather(VariantTexts(items, q), n))
  {
    if n > 0 {
      TextsSame(items, p, q, n - 1);
    }
  }

  lemma EnumsSame(inlineValues: Option<Json>, a: Members, b: Members, p: string, q: string)
    requires AlikeOptions(a, b)
    ensures Same(ParseEnumType(inlineValues, a, p), ParseEnumType(inlineValues, b, q))
  {
    assert Lookup(a, "values") == Lookup(b, "values") && Lookup(a, "in") == Lookup(b, "in");
    var values := OrElse(OrElse(inlineValues, Lookup(a, "values")), Lookup(a, "in"));
    if values.Some? && values.value.JArray? {
      TextsSame(values.value.items, p, q, |values.value.items|);
    }
  }

  lemma {:induction false} ListsSame(toF64: int -> F64, inlineType: Option<Json>, a: Members, b: Members,
                                     p: string, q: string)
    requires AlikeOptions(a, b)
    ensures Same(ParseListType(toF64, inlineType, a, p), ParseListType(toF64, inlineType, b, q))
    decreases Whole(inlineType) + Load(Some(a)) + 1, 1
  {
    LookupWeight(a, "of");
    LookupWeight(a, "item");
    SizesSame(a, b, p, q);
    assert Lookup(a, "of") == Lookup(b, "of") && Lookup(a, "item") == Lookup(b, "item");
    var value := OrElse(inlineType, OrElse(Lookup(a, "of"), Lookup(a, "item")));
    if value.Some? {
      PathOnlyInErrors(toF64, value.value, None, None, p + ".of", q + ".of");
    }
  }

  lemma {:induction false} DictsSame(toF64: int -> F64, inlineType: Option<Json>, a: Members, b: Members,
                                     p: string, q: string)
    requires AlikeOptions(a, b)
    ensures Same(ParseDictType(toF64, inlineType, a, p), ParseDictType(toF64, inlineType, b, q))
    decreases Whole(inlineType) + Load(Some(a)) + 1, 1
  {
    LookupWeight(a, "values");
    LookupWeight(a, "value");
    SizesSame(a, b, p, q);
    assert Lookup(a, "values") == Lookup(b, "values") && Lookup(a, "value") == Lookup(b, "value");
    var value := OrElse(inlineType, OrElse(Lookup(a, "values"), Lookup(a, "value")));
    if value.Some? {
      PathOnlyInErrors(toF64, value.value, None, None, p + ".values", q + ".values");
    }
  }

  lemma {:induction false} OptionalsSame(toF64: int -> F64, a: Members, b: Members, p: string, q: string)
    requires AlikeOptions(a, b)
    ensures Same(ParseOptionalType(toF64, a, p), ParseOptionalType(toF64, b, q))
    decreases Load(Some(a)) + 1, 1
  {
    LookupWeight(a, "of");
    assert Lookup(a, "of") == Lookup(b, "of");
    if Lookup(a, "of").Some? {
      PathOnlyInErrors(toF64, Lookup(a, "of").value, None, None, p + ".of", q + ".of");
    }
  }

  lemma {:induction false} StructsSame(toF64: int -> F64, a: Members, b: Members, p: string, q: string)
    requires AlikeOptions(a, b)
    ensures Same(ParseStructType(toF64, a, p), ParseStructType(toF64, b, q))
    decreases Load(Some(a)) + 1, 1
  {
    LookupWeight(a, "fields");
    assert Lookup(a, "fields") == Lookup(b, "fields") && Lookup(a, "extra") == Lookup(b, "extra");
    var value := Lookup(a, "fields");
    if value.Some? && value.value.JArray? {
      FieldsSame(toF64, value.value.items, p, q, |value.value.items|);
    }
  }

  lemma {:induction false} FieldsSame(toF64: int -> F64, items: seq<Json>, p: string, q: string, n: nat)
    requires n <= |items|
    ensures Same(ParseFields(toF64, items, p, n), ParseFields(toF64, items, q, n))
    decreases Weight(JArray(items)), 0, n
  {
    if n > 0 {
      FieldsSame(toF64, items, p, q, n - 1);
      WeightItem(items, n - 1);
      FieldSame(toF64, items[n - 1], p + ".fields[" + Decimal(n - 1) + "]", q + ".fields[" + Decimal(n - 1) + "]");
    }
  }

  lemma {:induction false} FieldSame(toF64: int -> F64, value: Json, p: string, q: string)
    ensures Same(ParseFieldEntry(toF64, value, p), ParseFieldEntry(toF64, value, q))
    decreases Weight(value), 0
  {
    if value.JArray? && |value.items| >= 3 {
      ArrayWeight(value.items, 2, 3);
      var options := AsObject(ItemAt(value.items, 3));
      PathOnlyInErrors(toF64, value.items[2], options, options, p + ".type", q + ".type");
    }
  }

  /** Field options that look alike to every type parser. */
  ghost predicate AlikeFieldOptions(a: Option<Members>, b: Option<Members>) {
    AlikeOptions(MergeOptions(None, a), MergeOptions(None, b))
  }

  lemma AlikeMerged(inline: Option<Members>, a: Option<Members>, b: Option<Members>)
    requires AlikeFieldOptions(a, b)
    ensures AlikeOptions(MergeOptions(inline, a), MergeOptions(inline, b))
  {
    forall key | key in {"min", "max", "min_size", "max_size", "format", "values", "in", "of", "item", "value",
                         "fields", "extra"}
      ensures Lookup(MergeOptions(inline, a), key) == Lookup(MergeOptions(inline, b), key)
    {
      assert Lookup(MergeOptions(None, a), key) == Lookup(MergeOptions(None, b), key);
    }
  }

  lemma ScalarNameSame(toF64: int -> F64, name: string, inline: Option<Members>,
                       a: Option<Members>, b: Option<Members>, p: string, q: string)
    requires AlikeFieldOptions(a, b)
    requires NamedKind(Lowercase(name)) !in {Some(EnumKind), Some(ListKind), Some(DictKind), Some(OptionalKind),
                                             Some(StructKind)}
    ensures Same(ParseNamedType(toF64, name, inline, a, p), ParseNamedType(toF64, name, inline, b, q))
  {
    AlikeMerged(inline, a, b);
    var options, others := MergeOptions(inline, a), MergeOptions(inline, b);
    match NamedKind(Lowercase(name))
    case Some(IntKind) => IntsSame(options, others, p, q);
    case Some(FloatKind) => FloatsSame(toF64, options, others, p, q);
    case Some(StringKind) => StringsSame(options, others, p, q);
    case _ =>
  }

  lemma {:induction false} NamedSame(toF64: int -> F64, name: string, inline: Option<Members>,
                                     a: Option<Members>, b: Option<Members>, p: string, q: string)
    requires AlikeFieldOptions(a, b)
    ensures Same(ParseNamedType(toF64, name, inline, a, p), ParseNamedType(toF64, name, inline, b, q))
    decreases Load(inline) + Load(a) + 1, 2
  {
    MergeWeight(inline, a);
    AlikeMerged(inline, a, b);
    var options, others := MergeOptions(inline, a), MergeOptions(inline, b);
    match NamedKind(Lowercase(name))
    case Some(EnumKind) => EnumsSame(None, options, others, p, q);
    case Some(ListKind) => ListsSame(toF64, None, options, others, p, q);
    case Some(DictKind) => DictsSame(toF64, None, options, others, p, q);
    case Some(OptionalKind) => OptionalsSame(toF64, options, others, p, q);
    case Some(StructKind) => StructsSame(toF64, options, others, p, q);
    case _ => ScalarNameSame(toF64, name, inline, a, b, p, q);
  }

  lemma NestedFits(items: seq<Json>, fieldOptions: Option<Members>)
    requires |items| >= 2
    ensures Whole(Some(items[1])) + Load(Some(MergeOptions(AsObject(ItemAt(items, 2)), fieldOptions))) + 1
         <= Weight(JArray(items)) + Load(fieldOptions)
  {
    ArrayWeight(items, 1, 2);
    MergeWeight(AsObject(ItemAt(items, 2)), fieldOptions);
  }

  lemma ArrayParsesList(toF64: int -> F64, items: seq<Json>, fieldOptions: Option<Members>, path: string)
    requires |items| >= 2 && items[0].JString? && ArrayKind(items[0].s) == Some(ListKind)
    ensures ParseArrayType(toF64, items, fieldOptions, path)
         == ParseListType(toF64, Some(items[1]), MergeOptions(AsObject(ItemAt(items, 2)), fieldOptions), path)
  {
  }

  lemma ArrayParsesDict(toF64: int -> F64, items: seq<Json>, fieldOptions: Option<Members>, path: string)
    requires |items| >= 2 && items[0].JString? && ArrayKind(items[0].s) == Some(DictKind)
    ensures ParseArrayType(toF64, items, fieldOptions, path)
         == ParseDictType(toF64, Some(items[1]), MergeOptions(AsObject(ItemAt(items, 2)), fieldOptions), path)
  {
  }

  lemma ArrayParsesStruct(toF64: int -> F64, items: seq<Json>, fieldOptions: Option<Members>, path: string)
    requires items != [] && items[0].JString? && ArrayKind(items[0].s) == Some(StructKind)
    ensures ParseArrayType(toF64, items, fieldOptions, path)
         == ParseStructType(toF64, MergeOptions(AsObject(ItemAt(items, 1)), fieldOptions), path)
  {
  }

  lemma {:induction false} OptionalArraysSame(toF64: int -> F64, items: seq<Json>, a: Option<Members>,
                                              b: Option<Members>, p: string, q: string)
    requires AlikeFieldOptions(a, b)
    requires |items| >= 2 && items[0].JString? && ArrayKind(items[0].s) == Some(OptionalKind)
    ensures Same(ParseArrayType(toF64, items, a, p), ParseArrayType(toF64, items, b, q))
    decreases Weight(JArray(items)) + Load(a), 2
  {
    ArrayWeight(items, 1, 2);
    PathOnlyInErrors(toF64, items[1], a, b, p + ".optional", q + ".optional");
  }

  lemma {:induction false} ListArraysSame(toF64: int -> F64, items: seq<Json>, a: Option<Members>,
                                              b: Option<Members>, p: string, q: string)
    requires AlikeFieldOptions(a, b)
    requires |items| >= 2 && items[0].JString? && ArrayKind(items[0].s) == Some(ListKind)
    ensures Same(ParseArrayType(toF64, items, a, p), ParseArrayType(toF64, items, b, q))
    decreases Weight(JArray(items)) + Load(a), 2
  {
    var third := AsObject(ItemAt(items, 2));
    NestedFits(items, a);
    AlikeMerged(third, a, b);
    ArrayParsesList(toF64, items, a, p);
    ArrayParsesList(toF64, items, b, q);
    ListsSame(toF64, Some(items[1]), MergeOptions(third, a), MergeOptions(third, b), p, q);
  }

  lemma {:induction false} DictArraysSame(toF64: int -> F64, items: seq<Json>, a: Option<Members>,
                                              b: Option<Members>, p: string, q: string)
    requires AlikeFieldOptions(a, b)
    requires |items| >= 2 && items[0].JString? && ArrayKind(items[0].s) == Some(DictKind)
    ensures Same(ParseArrayType(toF64, items, a, p), ParseArrayType(toF64, items, b, q))
    decreases Weight(JArray(items)) + Load(a), 2
  {
    var third := AsObject(ItemAt(items, 2));
    NestedFits(items, a);
    AlikeMerged(third, a, b);
    ArrayParsesDict(toF64, items, a, p);
    ArrayParsesDict(toF64, items, b, q);
    DictsSame(toF64, Some(items[1]), MergeOptions(third, a), MergeOptions(third, b), p, q);
  }

  lemma {:induction false} StructArraysSame(toF64: int -> F64, items: seq<Json>, a: Option<Members>,
                                              b: Option<Members>, p: string, q: string)
    requires AlikeFieldOptions(a, b)
    requires items != [] && items[0].JString? && ArrayKind(items[0].s) == Some(StructKind)
    ensures Same(ParseArrayType(toF64, items, a, p), ParseArrayType(toF64, items, b, q))
    decreases Weight(JArray(items)) + Load(a), 2
  {
    var second := AsObject(ItemAt(items, 1));
    ArrayWeight(items, 2, 1);
    MergeWeight(second, a);
    AlikeMerged(second, a, b);
    ArrayParsesStruct(toF64, items, a, p);
    ArrayParsesStruct(toF64, items, b, q);
    StructsSame(toF64, MergeOptions(second, a), MergeOptions(second, b), p, q);
  }

  lemma {:induction false} EnumArraysSame(toF64: int -> F64, items: seq<Json>, a: Option<Members>,
                                              b: Option<Members>, p: string, q: string)
    requires AlikeFieldOptions(a, b)
    requires items != [] && items[0].JString? && ArrayKind(items[0].s) == Some(EnumKind)
    ensures Same(ParseArrayType(toF64, items, a, p), ParseArrayType(toF64, items, b, q))
    decreases Weight(JArray(items)) + Load(a), 2
  {
    assert MergeOptions(a, None) == MergeOptions(None, a) && MergeOptions(b, None) == MergeOptions(None, b);
    EnumsSame(ItemAt(items, 1), MergeOptions(a, None), MergeOptions(b, None), p, q);
  }

  lemma {:induction false} NamedArraysSame(toF64: int -> F64, items: seq<Json>, a: Option<Members>,
                                              b: Option<Members>, p: string, q: string)
    requires AlikeFieldOptions(a, b)
    requires items != [] && items[0].JString? && ArrayKind(items[0].s) == None
    ensures Same(ParseArrayType(toF64, items, a, p), ParseArrayType(toF64, items, b, q))
    decreases Weight(JArray(items)) + Load(a), 2
  {
    ArrayWeight(items, 0, 0);
    NamedSame(toF64, items[0].s, None, a, b, p, q);
  }

  lemma {:induction false} ArraysSame(toF64: int -> F64, items: seq<Json>, a: Option<Members>, b: Option<Members>,
                                      p: string, q: string)
    requires AlikeFieldOptions(a, b)
    ensures Same(ParseArrayType(toF64, items, a, p), ParseArrayType(toF64, items, b, q))
    decreases Weight(JArray(items)) + Load(a), 3
  {
    if items != [] && items[0].JString? {
      var kind := ArrayKind(items[0].s);
      if kind.None? {
        NamedArraysSame(toF64, items, a, b, p, q);
      } else if kind.value.StructKind? {
        StructArraysSame(toF64, items, a, b, p, q);
      } else if kind.value.EnumKind? {
        EnumArraysSame(toF64, items, a, b, p, q);
      } else if |items| >= 2 {
        match kind.value
        case OptionalKind => OptionalArraysSame(toF64, items, a, b, p, q);
        case ListKind => ListArraysSame(toF64, items, a, b, p, q);
        case DictKind => DictArraysSame(toF64, items, a, b, p, q);
      }
    }
  }

  /** Where a type expression stands shows only in the paths of its errors, and
      of its field options only the twelve known keys matter. */
  lemma {:induction false} PathOnlyInErrors(toF64: int -> F64, value: Json, a: Option<Members>, b: Option<Members>,
                                            p: string, q: string)
    requires AlikeFieldOptions(a, b)
    ensures Same(ParseTypeExpr(toF64, value, a, p), ParseTypeExpr(toF64, value, b, q))
    decreases Weight(value) + Load(a), 4
  {
    match value
    case JString(name) => NamedSame(toF64, name, None, a, b, p, q);
    case JObject(members) =>
      if "type" in members && members["type"].JString? {
        InlineWeight(members);
        NamedSame(toF64, members["type"].s, Some(InlineWithoutType(members)), a, b, p, q);
      }
    case JArray(items) => ArraysSame(toF64, items, a, b, p, q);
    case _ =>
  }

  /** Without field options, or with none of the known ones, the spellings of
      an optional do agree, up to the path of an error. */
  lemma OptionalSpellingsAgree(toF64: int -> F64, of: Json, fieldOptions: Option<Members>, path: string)
    requires AlikeFieldOptions(fieldOptions, None)
    ensures Same(ParseTypeExpr(toF64, JArray([JString("optional"), of]), fieldOptions, path),
                 ParseTypeExpr(toF64, ObjectForm("optional", "of", of, map[]), fieldOptions, path))
  {
    OptionalSpellings(toF64, of, fieldOptions, path);
    PathOnlyInErrors(toF64, of, fieldOptions, None, path + ".optional", path + ".of");
  }

  /** The options that a type without an inner type of its own looks at. */
  function OwnOptions(kind: Option<Kind>): set<string> {
    match kind
    case Some(IntKind) => {"min", "max"}
    case Some(FloatKind) => {"min", "max"}
    case Some(StringKind) => {"min_size", "max_size", "format"}
    case Some(EnumKind) => {"values", "in"}
    case _ => {}
  }

  lemma MergeOne(options: Members)
    ensures MergeOptions(None, Some(options)) == options && MergeOptions(None, None) == map[]
  {
    assert options + map[] == options;
  }

  lemma IntsExact(options: Members, p: string, q: string)
    ensures Same(ParseIntConstraints(options, p), ParseIntConstraints(map[], q))
       <==> options.Keys !! {"min", "max"}
  {
  }

  lemma FloatsExact(toF64: int -> F64, options: Members, p: string, q: string)
    ensures Same(ParseFloatConstraints(toF64, options, p), ParseFloatConstraints(toF64, map[], q))
       <==> options.Keys !! {"min", "max"}
  {
  }

  lemma StringsExact(options: Members, p: string, q: string)
    ensures Same(ParseStringConstraints(options, p), ParseStringConstraints(map[], q))
       <==> options.Keys !! {"min_size", "max_size", "format"}
  {
  }

  lemma EnumsExact(options: Members, p: string, q: string)
    ensures Same(ParseEnumType(None, options, p), ParseEnumType(None, map[], q))
       <==> options.Keys !! {"values", "in"}
  {
    var values := OrElse(Lookup(options, "values"), Lookup(options, "in"));
    if values.Some? && values.value.JArray? {
      var items := values.value.items;
      if Gather(VariantTexts(items, p), |items|).Failure? {
        TextsFail(items, p, |items|);
      }
    }
  }

  lemma {:induction false} TextsFail(items: seq<Json>, path: string, n: nat)
    requires n <= |items| && Gather(VariantTexts(items, path), n).Failure?
    ensures Gather(VariantTexts(items, path), n).error.reason == ValueNotString
  {
    if Gather(VariantTexts(items, path), n - 1).Failure? {
      TextsFail(items, path, n - 1);
    }
  }

  lemma NamedExact(toF64: int -> F64, name: string, options: Members, p: string, q: string)
    requires NamedKind(Lowercase(name)) !in {Some(ListKind), Some(DictKind), Some(OptionalKind), Some(StructKind)}
    ensures Same(ParseNamedType(toF64, name, None, Some(options), p), ParseNamedType(toF64, name, None, None, q))
       <==> options.Keys !! OwnOptions(NamedKind(Lowercase(name)))
  {
    MergeOne(options);
    match NamedKind(Lowercase(name))
    case Some(IntKind) => IntsExact(options, p, q);
    case Some(FloatKind) => FloatsExact(toF64, options, p, q);
    case Some(StringKind) => StringsExact(options, p, q);
    case Some(EnumKind) => EnumsExact(options, p, q);
    case _ =>
  }

  /** For a scalar, an enum or an unknown name, the two spellings of its
      optional agree exactly when the field options hold nothing of its own. */
  lemma OptionalSpellingsExact(toF64: int -> F64, name: string, fieldOptions: Members, path: string)
    requires NamedKind(Lowercase(name)) !in {Some(ListKind), Some(DictKind), Some(OptionalKind), Some(StructKind)}
    ensures Same(ParseTypeExpr(toF64, JArray([JString("optional"), JString(name)]), Some(fieldOptions), path),
                 ParseTypeExpr(toF64, ObjectForm("optional", "of", JString(name), map[]), Some(fieldOptions), path))
       <==> fieldOptions.Keys !! OwnOptions(NamedKind(Lowercase(name)))
  {
    OptionalSpellings(toF64, JString(name), Some(fieldOptions), path);
    NamedExact(toF64, name, fieldOptions, path + ".optional", path + ".of");
  }
}
