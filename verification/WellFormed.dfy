/** Which schema documents parse, said without parsing them. */
module WellFormed {
  import opened Wrappers
  import opened Values
  import opened Schema
  import opened Paths
  import opened Json
  import opened SchemaParser
  import opened SurfaceForms

  predicate IsI64(j: Json) {
    j.JNumber? && AsI64(j.num).Some?
  }

  predicate IsSize(j: Json) {
    j.JNumber? && AsU64(j.num).Some?
  }

  predicate IsNumber(j: Json) {
    j.JNumber?
  }

  predicate IsFormat(j: Json) {
    j in {JString("email"), JString("uuid"), JString("url")}
  }

  predicate IsExtra(j: Json) {
    j in {JString("forbid"), JString("ignore"), JString("allow")}
  }

  predicate IsVariants(j: Json) {
    j.JArray? && j.items != [] && forall i | 0 <= i < |j.items| :: j.items[i].JString?
  }

  /** Present options are of this kind. */
  predicate Each(options: Members, keys: set<string>, kind: Json -> bool) {
    forall key | key in keys && key in options :: kind(options[key])
  }

  predicate SizesOk(options: Members) {
    Each(options, {"min_size", "max_size"}, IsSize)
  }

  /** The first of these options that is there. */
  function FirstOf(options: Members, first: string, second: string): Option<Json> {
    if first in options then Some(options[first]) else Lookup(options, second)
  }

  predicate TypeOk(ty: Json, options: Members)
    decreases Weight(ty) + Load(Some(options)), 3
  {
    match ty
    case JString(name) => NamedOk(name, options)
    case JObject(members) =>
      && "type" in members && members["type"].JString?
      && (InlineWeight(members);
          MergeWeight(Some(InlineWithoutType(members)), Some(options));
          NamedOk(members["type"].s, options + InlineWithoutType(members)))
    case JArray(items) => ArrayOk(items, options)
    case _ => false
  }

  /** A type name with all the options that apply to it. */
  predicate NamedOk(name: string, options: Members)
    decreases Load(Some(options)) + 1, 2
  {
    match NamedKind(Lowercase(name))
    case None => false
    case Some(IntKind) => Each(options, {"min", "max"}, IsI64)
    case Some(FloatKind) => Each(options, {"min", "max"}, IsNumber)
    case Some(StringKind) => SizesOk(options) && Each(options, {"format"}, IsFormat)
    case Some(EnumKind) =>
      (match FirstOf(options, "values", "in")
       case Some(j) => IsVariants(j)
       case None => false)
    case Some(ListKind) =>
      LookupWeight(options, "of");
      LookupWeight(options, "item");
      SizesOk(options) && (match FirstOf(options, "of", "item")
                           case Some(j) => TypeOk(j, map[])
                           case None => false)
    case Some(DictKind) =>
      LookupWeight(options, "values");
      LookupWeight(options, "value");
      SizesOk(options) && (match FirstOf(options, "values", "value")
                           case Some(j) => TypeOk(j, map[])
                           case None => false)
    case Some(OptionalKind) =>
      LookupWeight(options, "of");
      "of" in options && TypeOk(options["of"], map[])
    case Some(StructKind) => StructOk(options)
    case _ => true
  }

  predicate StructOk(options: Members)
    decreases Load(Some(options)) + 1, 1
  {
    LookupWeight(options, "fields");
    && "fields" in options && FieldsOk(options["fields"])
    && Each(options, {"extra"}, IsExtra)
  }

  predicate ArrayOk(items: seq<Json>, options: Members)
    decreases Weight(JArray(items)) + Load(Some(options)), 2
  {
    && items != [] && items[0].JString?
    && (ArrayFits(items, Some(options));
        match ArrayKind(items[0].s)
        case Some(OptionalKind) => |items| >= 2 && TypeOk(items[1], options)
        case Some(EnumKind) =>
          if |items| >= 2 then IsVariants(items[1])
          else
            (match FirstOf(options, "values", "in")
             case Some(j) => IsVariants(j)
             case None => false)
        case Some(StructKind) => StructOk(MergeOptions(AsObject(ItemAt(items, 1)), Some(options)))
        case Some(_) =>
          |items| >= 2 && TypeOk(items[1], map[]) && SizesOk(MergeOptions(AsObject(ItemAt(items, 2)), Some(options)))
        case None => NamedOk(items[0].s, options))
  }

  predicate FieldsOk(fields: Json)
    decreases Weight(fields), 1
  {
    fields.JArray? && forall i | 0 <= i < |fields.items| ::
      (WeightItem(fields.items, i); FieldOk(fields.items[i]))
  }

  /** Presence, name, type and, if an object comes fourth, its options. */
  predicate FieldOk(field: Json)
    decreases Weight(field), 0
  {
    && field.JArray? && |field.items| >= 3
    && field.items[0] in {JString("required"), JString("optional")}
    && field.items[1].JString?
    && (ArrayWeight(field.items, 2, 3);
        MergeWeight(AsObject(ItemAt(field.items, 3)), None);
        TypeOk(field.items[2], MergeOptions(AsObject(ItemAt(field.items, 3)), None)))
  }

  predicate SourceOk(source: Option<Json>) {
    source.Some? && TypeOk(source.value, map[])
  }

  lemma SizesParse(options: Members, path: string)
    ensures ParseCollectionConstraints(options, path).Success? <==> SizesOk(options)
  {
    var kinds := {"min_size", "max_size"};
    assert "min_size" in kinds && "max_size" in kinds;
  }

  lemma IntsParse(options: Members, path: string)
    ensures ParseIntConstraints(options, path).Success? <==> Each(options, {"min", "max"}, IsI64)
  {
    var kinds := {"min", "max"};
    assert "min" in kinds && "max" in kinds;
  }

  lemma FloatsParse(toF64: int -> F64, options: Members, path: string)
    ensures ParseFloatConstraints(toF64, options, path).Success? <==> Each(options, {"min", "max"}, IsNumber)
  {
    var kinds := {"min", "max"};
    assert "min" in kinds && "max" in kinds;
  }

  lemma StringsParse(options: Members, path: string)
    ensures ParseStringConstraints(options, path).Success?
       <==> SizesOk(options) && Each(options, {"format"}, IsFormat)
  {
    var kinds := {"format"};
    assert "format" in kinds;
    SizesParse(options, path);
  }

  lemma ValuesParse(j: Json, path: string)
    ensures (if j.JArray? then ParseVariants(j.items, path) else Invalid(path, ValuesNotArray)).Success?
       <==> IsVariants(j)
  {
    if j.JArray? {
      EnumKeepsMembers(j.items, path);
    }
  }

  lemma ExtraParses(options: Members, path: string)
    ensures ParseExtra(Lookup(options, "extra"), path).Success? <==> Each(options, {"extra"}, IsExtra)
  {
    var kinds := {"extra"};
    assert "extra" in kinds;
  }

  lemma {:induction false} ListOk(toF64: int -> F64, inline: Option<Json>, options: Members, path: string)
    ensures ParseListType(toF64, inline, options, path).Success?
       <==> SizesOk(options) && SourceOk(OrElse(inline, FirstOf(options, "of", "item")))
    decreases Whole(inline) + Load(Some(options)) + 1, 1
  {
    LookupWeight(options, "of");
    LookupWeight(options, "item");
    SizesParse(options, path);
    var source := OrElse(inline, FirstOf(options, "of", "item"));
    if source.Some? {
      ParsesIfOk(toF64, source.value, None, path + ".of");
    }
  }

  lemma {:induction false} DictOk(toF64: int -> F64, inline: Option<Json>, options: Members, path: string)
    ensures ParseDictType(toF64, inline, options, path).Success?
       <==> SizesOk(options) && SourceOk(OrElse(inline, FirstOf(options, "values", "value")))
    decreases Whole(inline) + Load(Some(options)) + 1, 1
  {
    LookupWeight(options, "values");
    LookupWeight(options, "value");
    SizesParse(options, path);
    var source := OrElse(inline, FirstOf(options, "values", "value"));
    if source.Some? {
      ParsesIfOk(toF64, source.value, None, path + ".values");
    }
  }

  lemma {:induction false} FieldParsesIfOk(toF64: int -> F64, field: Json, path: string)
    ensures ParseFieldEntry(toF64, field, path).Success? <==> FieldOk(field)
    decreases Weight(field), 0
  {
    if field.JArray? && |field.items| >= 3 {
      ArrayWeight(field.items, 2, 3);
      var options := AsObject(ItemAt(field.items, 3));
      ParsesIfOk(toF64, field.items[2], options, path + ".type");
      assert MergeOptions(options, None) == MergeOptions(None, options);
    }
  }

  lemma FieldsStep(toF64: int -> F64, items: seq<Json>, path: string, n: nat)
    requires n < |items|
    ensures ParseFields(toF64, items, path, n + 1).Success?
       <==> && ParseFields(toF64, items, path, n).Success?
            && ParseFieldEntry(toF64, items[n], path + ".fields[" + Decimal(n) + "]").Success?
  {
  }

  function EntryAt(toF64: int -> F64, items: seq<Json>, path: string, i: nat): Parsed<FieldExpr>
    requires i < |items|
  {
    ParseFieldEntry(toF64, items[i], path + ".fields[" + Decimal(i) + "]")
  }

  lemma {:induction false} FieldsSucceed(toF64: int -> F64, items: seq<Json>, path: string, n: nat)
    requires n <= |items|
    ensures ParseFields(toF64, items, path, n).Success?
       <==> forall i | 0 <= i < n :: EntryAt(toF64, items, path, i).Success?
    decreases n
  {
    if n > 0 {
      FieldsSucceed(toF64, items, path, n - 1);
      FieldsStep(toF64, items, path, n - 1);
      assert EntryAt(toF64, items, path, n - 1).Success?
        <==> ParseFieldEntry(toF64, items[n - 1], path + ".fields[" + Decimal(n - 1) + "]").Success?;
    }
  }

  lemma {:induction false} FieldsParseIfOk(toF64: int -> F64, fields: Json, path: string)
    requires fields.JArray?
    ensures ParseFields(toF64, fields.items, path, |fields.items|).Success? <==> FieldsOk(fields)
    decreases Weight(fields), 1
  {
    var items := fields.items;
    FieldsSucceed(toF64, items, path, |items|);
    forall i | 0 <= i < |items| ensures EntryAt(toF64, items, path, i).Success? <==> FieldOk(items[i]) {
      WeightItem(items, i);
      FieldParsesIfOk(toF64, items[i], path + ".fields[" + Decimal(i) + "]");
    }
  }

  lemma {:induction false} StructParsesIfOk(toF64: int -> F64, options: Members, path: string)
    ensures ParseStructType(toF64, options, path).Success? <==> StructOk(options)
    decreases Load(Some(options)) + 1, 1
  {
    ExtraParses(options, path);
    if "fields" in options && options["fields"].JArray? {
      LookupWeight(options, "fields");
      FieldsParseIfOk(toF64, options["fields"], path);
    }
  }

  lemma {:induction false} NamedParsesIfOk(toF64: int -> F64, name: string, inline: Option<Members>,
                                           outer: Option<Members>, path: string)
    ensures ParseNamedType(toF64, name, inline, outer, path).Success? <==> NamedOk(name, MergeOptions(inline, outer))
    decreases Load(inline) + Load(outer) + 1, 2
  {
    var options := MergeOptions(inline, outer);
    MergeWeight(inline, outer);
    match NamedKind(Lowercase(name))
    case Some(IntKind) => IntsParse(options, path);
    case Some(FloatKind) => FloatsParse(toF64, options, path);
    case Some(StringKind) => StringsParse(options, path);
    case Some(EnumKind) =>
      if FirstOf(options, "values", "in").Some? {
        ValuesParse(FirstOf(options, "values", "in").value, path);
      }
    case Some(ListKind) => ListOk(toF64, None, options, path);
    case Some(DictKind) => DictOk(toF64, None, options, path);
    case Some(OptionalKind) =>
      if "of" in options {
        LookupWeight(options, "of");
        ParsesIfOk(toF64, options["of"], None, path + ".of");
      }
    case Some(StructKind) => StructParsesIfOk(toF64, options, path);
    case _ =>
  }

  lemma {:induction false} OptionalArrayOk(toF64: int -> F64, items: seq<Json>, outer: Option<Members>, path: string)
    requires items != [] && items[0].JString? && ArrayKind(items[0].s) == Some(OptionalKind)
    ensures ParseArrayType(toF64, items, outer, path).Success? <==> ArrayOk(items, MergeOptions(None, outer))
    decreases Weight(JArray(items)) + Load(outer), 2
  {
    ArrayFits(items, outer);
    if |items| >= 2 {
      ParsesIfOk(toF64, items[1], outer, path + ".optional");
    }
  }

  lemma {:induction false} ListArrayOk(toF64: int -> F64, items: seq<Json>, outer: Option<Members>, path: string)
    requires items != [] && items[0].JString? && ArrayKind(items[0].s) == Some(ListKind)
    ensures ParseArrayType(toF64, items, outer, path).Success? <==> ArrayOk(items, MergeOptions(None, outer))
    decreases Weight(JArray(items)) + Load(outer), 2
  {
    ArrayFits(items, outer);
    MergedTwice(AsObject(ItemAt(items, 2)), outer);
    if |items| >= 2 {
      ArrayParsesList(toF64, items, outer, path);
      ListOk(toF64, Some(items[1]), MergeOptions(AsObject(ItemAt(items, 2)), outer), path);
    }
  }

  lemma {:induction false} DictArrayOk(toF64: int -> F64, items: seq<Json>, outer: Option<Members>, path: string)
    requires items != [] && items[0].JString? && ArrayKind(items[0].s) == Some(DictKind)
    ensures ParseArrayType(toF64, items, outer, path).Success? <==> ArrayOk(items, MergeOptions(None, outer))
    decreases Weight(JArray(items)) + Load(outer), 2
  {
    ArrayFits(items, outer);
    MergedTwice(AsObject(ItemAt(items, 2)), outer);
    if |items| >= 2 {
      ArrayParsesDict(toF64, items, outer, path);
      DictOk(toF64, Some(items[1]), MergeOptions(AsObject(ItemAt(items, 2)), outer), path);
    }
  }

  lemma {:induction false} EnumArrayOk(toF64: int -> F64, items: seq<Json>, outer: Option<Members>, path: string)
    requires items != [] && items[0].JString? && ArrayKind(items[0].s) == Some(EnumKind)
    ensures ParseArrayType(toF64, items, outer, path).Success? <==> ArrayOk(items, MergeOptions(None, outer))
    decreases Weight(JArray(items)) + Load(outer), 2
  {
    ArrayFits(items, outer);
    var options := MergeOptions(None, outer);
    assert MergeOptions(outer, None) == options;
    var source := OrElse(ItemAt(items, 1), FirstOf(options, "values", "in"));
    if source.Some? {
      ValuesParse(source.value, path);
    }
  }

  lemma {:induction false} StructArrayOk(toF64: int -> F64, items: seq<Json>, outer: Option<Members>, path: string)
    requires items != [] && items[0].JString? && ArrayKind(items[0].s) == Some(StructKind)
    ensures ParseArrayType(toF64, items, outer, path).Success? <==> ArrayOk(items, MergeOptions(None, outer))
    decreases Weight(JArray(items)) + Load(outer), 2
  {
    ArrayFits(items, outer);
    MergedTwice(AsObject(ItemAt(items, 1)), outer);
    ArrayParsesStruct(toF64, items, outer, path);
    StructParsesIfOk(toF64, MergeOptions(AsObject(ItemAt(items, 1)), outer), path);
  }

  lemma {:induction false} NamedArrayOk(toF64: int -> F64, items: seq<Json>, outer: Option<Members>, path: string)
    requires items != [] && items[0].JString? && ArrayKind(items[0].s) == None
    ensures ParseArrayType(toF64, items, outer, path).Success? <==> ArrayOk(items, MergeOptions(None, outer))
    decreases Weight(JArray(items)) + Load(outer), 2
  {
    ArrayFits(items, outer);
    NamedParsesIfOk(toF64, items[0].s, None, outer, path);
  }

  lemma MergedTwice(inline: Option<Members>, outer: Option<Members>)
    ensures MergeOptions(inline, Some(MergeOptions(None, outer))) == MergeOptions(inline, outer)
  {
  }

  lemma {:induction false} ArrayParsesIfOk(toF64: int -> F64, items: seq<Json>, outer: Option<Members>, path: string)
    requires items != [] && items[0].JString?
    ensures ParseArrayType(toF64, items, outer, path).Success? <==> ArrayOk(items, MergeOptions(None, outer))
    decreases Weight(JArray(items)) + Load(outer), 3
  {
    match ArrayKind(items[0].s)
    case None => NamedArrayOk(toF64, items, outer, path);
    case Some(kind) =>
      match kind
      case OptionalKind => OptionalArrayOk(toF64, items, outer, path);
      case ListKind => ListArrayOk(toF64, items, outer, path);
      case DictKind => DictArrayOk(toF64, items, outer, path);
      case EnumKind => EnumArrayOk(toF64, items, outer, path);
      case StructKind => StructArrayOk(toF64, items, outer, path);
  }

  /** A type expression parses exactly if it is well formed under its options. */
  lemma {:induction false} ParsesIfOk(toF64: int -> F64, ty: Json, outer: Option<Members>, path: string)
    ensures ParseTypeExpr(toF64, ty, outer, path).Success? <==> TypeOk(ty, MergeOptions(None, outer))
    decreases Weight(ty) + Load(outer), 4
  {
    var options := MergeOptions(None, outer);
    match ty
    case JString(name) => NamedParsesIfOk(toF64, name, None, outer, path);
    case JObject(members) =>
      if "type" in members && members["type"].JString? {
        InlineWeight(members);
        var inline := InlineWithoutType(members);
        NamedParsesIfOk(toF64, members["type"].s, Some(inline), outer, path);
        assert MergeOptions(Some(inline), outer) == options + inline;
      }
    case JArray(items) =>
      if items != [] && items[0].JString? {
        ArrayParsesIfOk(toF64, items, outer, path);
      }
    case _ =>
  }

  /** A schema document compiles exactly if it is well formed. */
  lemma DocumentParsesIfOk(toF64: int -> F64, document: Json)
    ensures ParseDocument(toF64, document).Success? <==> TypeOk(document, map[])
  {
    ParsesIfOk(toF64, document, None, "$");
    assert MergeOptions(None, None) == map[];
  }
}
