/** What is wrong with a schema document, in the order in which the compiler meets
    it, and the error it gives: the first. */
module CompileErrors {
  import opened Wrappers
  import opened Values
  import opened Schema
  import opened Paths
  import opened Json
  import opened SchemaParser
  import opened SurfaceForms
  import opened TypeNames
  import opened WellFormed
  import opened OptionalForms

  function Error(path: string, reason: Reason): seq<CompileError> {
    [InvalidSchema(path, reason)]
  }

  /** An option that is there must be of this kind. */
  function OptionErrors(options: Members, key: string, kind: Json -> bool, path: string, reason: Reason)
    : seq<CompileError>
  {
    if key in options && !kind(options[key]) then Error(path, reason) else []
  }

  function SizeErrors(options: Members, path: string): seq<CompileError> {
    OptionErrors(options, "min_size", IsSize, path + ".min_size", NotUnsigned) +
    OptionErrors(options, "max_size", IsSize, path + ".max_size", NotUnsigned)
  }

  function FormatErrors(options: Members, path: string): seq<CompileError> {
    if "format" !in options then []
    else if !options["format"].JString? then Error(path + ".format", FormatNotString)
    else if options["format"].s in {"email", "uuid", "url"} then []
    else Error(path + ".format", UnsupportedFormat(options["format"].s))
  }

  function ExtraErrors(options: Members, path: string): seq<CompileError> {
    if "extra" !in options then []
    else if !options["extra"].JString? then Error(path, ExtraNotString)
    else if options["extra"].s in {"forbid", "ignore", "allow"} then []
    else Error(path, UnknownExtra(options["extra"].s))
  }

  /** The first `n` members of an enum. */
  function MemberErrors(items: seq<Json>, path: string, n: nat): seq<CompileError>
    requires n <= |items|
  {
    if n == 0 then []
    else if items[n - 1].JString? then MemberErrors(items, path, n - 1)
    else MemberErrors(items, path, n - 1) + Error(path + ".values[" + Decimal(n - 1) + "]", ValueNotString)
  }

  function ValuesErrors(values: Option<Json>, path: string): seq<CompileError> {
    match values
    case None => Error(path, MissingValues)
    case Some(j) =>
      if !j.JArray? then Error(path, ValuesNotArray)
      else if j.items == [] then Error(path, EmptyValues)
      else MemberErrors(j.items, path, |j.items|)
  }

  function TypeErrors(ty: Json, options: Members, path: string): seq<CompileError>
    decreases Weight(ty) + Load(Some(options)), 3
  {
    match ty
    case JString(name) => NamedErrors(name, options, path)
    case JObject(members) =>
      if "type" in members && members["type"].JString? then
        InlineWeight(members);
        MergeWeight(Some(InlineWithoutType(members)), Some(options));
        NamedErrors(members["type"].s, options + InlineWithoutType(members), path)
      else Error(path, MissingTypeKey)
    case JArray(items) => ArrayErrors(items, options, path)
    case _ => Error(path, UnsupportedTypeExpression)
  }

  function NamedErrors(name: string, options: Members, path: string): seq<CompileError>
    decreases Load(Some(options)) + 1, 2
  {
    if SpellsInt(name) then
      OptionErrors(options, "min", IsI64, path + ".min", NotInteger) +
      OptionErrors(options, "max", IsI64, path + ".max", NotInteger)
    else if SpellsFloat(name) then
      OptionErrors(options, "min", IsNumber, path + ".min", NotNumber) +
      OptionErrors(options, "max", IsNumber, path + ".max", NotNumber)
    else if SpellsString(name) then SizeErrors(options, path) + FormatErrors(options, path)
    else if SpellsAny(name) || SpellsBool(name) || SpellsSymbol(name) then []
    else if Spells(name, "enum") then ValuesErrors(FirstOf(options, "values", "in"), path)
    else if Spells(name, "list") then
      LookupWeight(options, "of");
      LookupWeight(options, "item");
      match FirstOf(options, "of", "item")
      case None => Error(path, MissingInnerType("list"))
      case Some(j) => TypeErrors(j, map[], path + ".of") + SizeErrors(options, path)
    else if Spells(name, "dict") then
      LookupWeight(options, "values");
      LookupWeight(options, "value");
      match FirstOf(options, "values", "value")
      case None => Error(path, MissingInnerType("dict"))
      case Some(j) => TypeErrors(j, map[], path + ".values") + SizeErrors(options, path)
    else if Spells(name, "optional") then
      LookupWeight(options, "of");
      if "of" in options then TypeErrors(options["of"], map[], path + ".of")
      else Error(path, MissingInnerType("optional"))
    else if Spells(name, "struct") then StructErrors(options, path)
    else Error(path, UnknownType(Lowercase(name)))
  }

  function StructErrors(options: Members, path: string): seq<CompileError>
    decreases Load(Some(options)) + 1, 1
  {
    LookupWeight(options, "fields");
    if "fields" !in options then Error(path, MissingFields)
    else ExtraErrors(options, path) + FieldsErrors(options["fields"], path)
  }

  function ArrayErrors(items: seq<Json>, options: Members, path: string): seq<CompileError>
    decreases Weight(JArray(items)) + Load(Some(options)), 2
  {
    if items == [] then Error(path, EmptyArrayType)
    else if !items[0].JString? then Error(path, UntaggedArrayType)
    else
      ArrayFits(items, Some(options));
      var tag := items[0].s;
      if tag in {"optional", "list", "dict"} && |items| < 2 then Error(path, MissingInnerType(tag))
      else if tag == "optional" then TypeErrors(items[1], options, path + ".optional")
      else if tag == "list" then
        TypeErrors(items[1], map[], path + ".of") +
        SizeErrors(MergeOptions(AsObject(ItemAt(items, 2)), Some(options)), path)
      else if tag == "dict" then
        TypeErrors(items[1], map[], path + ".values") +
        SizeErrors(MergeOptions(AsObject(ItemAt(items, 2)), Some(options)), path)
      else if tag == "enum" then
        ValuesErrors(if |items| >= 2 then Some(items[1]) else FirstOf(options, "values", "in"), path)
      else if tag == "struct" then StructErrors(MergeOptions(AsObject(ItemAt(items, 1)), Some(options)), path)
      else NamedErrors(tag, options, path)
  }

  function FieldsErrors(fields: Json, path: string): seq<CompileError>
    decreases Weight(fields), 1
  {
    if !fields.JArray? then Error(path, FieldsNotArray) else FieldErrorsUpTo(fields, path, |fields.items|)
  }

  function FieldErrorsUpTo(fields: Json, path: string, n: nat): seq<CompileError>
    requires fields.JArray? && n <= |fields.items|
    decreases Weight(fields), 0, n
  {
    if n == 0 then []
    else
      WeightItem(fields.items, n - 1);
      FieldErrorsUpTo(fields, path, n - 1) +
      FieldErrors(fields.items[n - 1], path + ".fields[" + Decimal(n - 1) + "]")
  }

  function FieldErrors(field: Json, path: string): seq<CompileError>
    decreases Weight(field), 0, 0
  {
    if !field.JArray? then Error(path, FieldNotArray)
    else if |field.items| < 3 then Error(path, FieldTooShort)
    else if !field.items[0].JString? then Error(path, PresenceNotString)
    else if field.items[0].s != "required" && field.items[0].s != "optional" then
      Error(path, UnsupportedPresence(field.items[0].s))
    else if !field.items[1].JString? then Error(path, NameNotString)
    else
      ArrayWeight(field.items, 2, 3);
      MergeWeight(AsObject(ItemAt(field.items, 3)), None);
      TypeErrors(field.items[2], MergeOptions(AsObject(ItemAt(field.items, 3)), None), path + ".type")
  }

  /** A result with the first of these errors, or none if there is none. */
  predicate Gives<T>(r: Parsed<T>, errors: seq<CompileError>) {
    if errors == [] then r.Success? else r.Failure? && r.error == errors[0]
  }

  lemma {:induction false} SizesGive(options: Members, path: string)
    ensures Gives(ParseCollectionConstraints(options, path), SizeErrors(options, path))
  {
  }

  lemma {:induction false} BoundsGive(toF64: int -> F64, options: Members, path: string)
    ensures Gives(ParseIntConstraints(options, path),
                  OptionErrors(options, "min", IsI64, path + ".min", NotInteger) +
                  OptionErrors(options, "max", IsI64, path + ".max", NotInteger))
    ensures Gives(ParseFloatConstraints(toF64, options, path),
                  OptionErrors(options, "min", IsNumber, path + ".min", NotNumber) +
                  OptionErrors(options, "max", IsNumber, path + ".max", NotNumber))
  {
  }

  lemma {:induction false} StringsGive(options: Members, path: string)
    ensures Gives(ParseStringConstraints(options, path), SizeErrors(options, path) + FormatErrors(options, path))
  {
    SizesGive(options, path);
    if "format" in options {
      assert Gives(ParseFormat(options["format"], path + ".format"), FormatErrors(options, path));
    }
  }

  lemma {:induction false} ExtraGives(options: Members, path: string)
    ensures Gives(ParseExtra(Lookup(options, "extra"), path), ExtraErrors(options, path))
  {
  }

  lemma {:induction false} MembersGive(items: seq<Json>, path: string, n: nat)
    requires n <= |items|
    ensures Gives(Gather(VariantTexts(items, path), n), MemberErrors(items, path, n))
  {
    if n > 0 {
      MembersGive(items, path, n - 1);
    }
  }

  lemma {:induction false} ValuesGive(inline: Option<Json>, options: Members, path: string)
    ensures Gives(ParseEnumType(inline, options, path),
                  ValuesErrors(OrElse(inline, FirstOf(options, "values", "in")), path))
  {
    var source := OrElse(inline, FirstOf(options, "values", "in"));
    if source.Some? && source.value.JArray? {
      MembersGive(source.value.items, path, |source.value.items|);
    }
  }

  function SourceErrors(source: Option<Json>, options: Members, path: string, step: string, missing: string)
    : seq<CompileError>
  {
    match source
    case None => Error(path, MissingInnerType(missing))
    case Some(j) => TypeErrors(j, map[], path + step) + SizeErrors(options, path)
  }

  lemma {:induction false} ListGives(toF64: int -> F64, inline: Option<Json>, options: Members, path: string)
    ensures Gives(ParseListType(toF64, inline, options, path),
                  SourceErrors(OrElse(inline, FirstOf(options, "of", "item")), options, path, ".of", "list"))
    decreases Whole(inline) + Load(Some(options)) + 1, 1
  {
    LookupWeight(options, "of");
    LookupWeight(options, "item");
    SizesGive(options, path);
    var source := OrElse(inline, FirstOf(options, "of", "item"));
    if source.Some? {
      TypeGives(toF64, source.value, None, path + ".of");
    }
  }

  lemma {:induction false} DictGives(toF64: int -> F64, inline: Option<Json>, options: Members, path: string)
    ensures Gives(ParseDictType(toF64, inline, options, path),
                  SourceErrors(OrElse(inline, FirstOf(options, "values", "value")), options, path, ".values", "dict"))
    decreases Whole(inline) + Load(Some(options)) + 1, 1
  {
    LookupWeight(options, "values");
    LookupWeight(options, "value");
    SizesGive(options, path);
    var source := OrElse(inline, FirstOf(options, "values", "value"));
    if source.Some? {
      TypeGives(toF64, source.value, None, path + ".values");
    }
  }

  lemma {:induction false} FieldGives(toF64: int -> F64, field: Json, path: string)
    ensures Gives(ParseFieldEntry(toF64, field, path), FieldErrors(field, path))
    decreases Weight(field), 0, 0
  {
    if field.JArray? && |field.items| >= 3 {
      ArrayWeight(field.items, 2, 3);
      var options := AsObject(ItemAt(field.items, 3));
      TypeGives(toF64, field.items[2], options, path + ".type");
      assert MergeOptions(options, None) == MergeOptions(None, options);
    }
  }

  /** One more field: its errors come after those before it. */
  lemma {:induction false} FieldsStepGives(toF64: int -> F64, items: seq<Json>, path: string, n: nat,
                                           before: seq<CompileError>, next: seq<CompileError>)
    requires n < |items| && Gives(ParseFields(toF64, items, path, n), before)
    requires Gives(ParseFieldEntry(toF64, items[n], path + ".fields[" + Decimal(n) + "]"), next)
    ensures Gives(ParseFields(toF64, items, path, n + 1), before + next)
  {
  }

  lemma {:induction false} FieldsGive(toF64: int -> F64, fields: Json, path: string, n: nat)
    requires fields.JArray? && n <= |fields.items|
    ensures Gives(ParseFields(toF64, fields.items, path, n), FieldErrorsUpTo(fields, path, n))
    decreases Weight(fields), 0, n
  {
    if n > 0 {
      var place := path + ".fields[" + Decimal(n - 1) + "]";
      FieldsGive(toF64, fields, path, n - 1);
      WeightItem(fields.items, n - 1);
      FieldGives(toF64, fields.items[n - 1], place);
      FieldsStepGives(toF64, fields.items, path, n - 1, FieldErrorsUpTo(fields, path, n - 1),
                      FieldErrors(fields.items[n - 1], place));
    }
  }

  lemma {:induction false} StructGives(toF64: int -> F64, options: Members, path: string)
    ensures Gives(ParseStructType(toF64, options, path), StructErrors(options, path))
    decreases Load(Some(options)) + 1, 1
  {
    ExtraGives(options, path);
    if "fields" in options {
      LookupWeight(options, "fields");
      var fields := options["fields"];
      if fields.JArray? {
        FieldsGive(toF64, fields, path, |fields.items|);
        assert FieldsErrors(fields, path) == FieldErrorsUpTo(fields, path, |fields.items|);
      } else {
        assert FieldsErrors(fields, path) == Error(path, FieldsNotArray);
      }
    }
  }

  lemma {:induction false} NamedGives(toF64: int -> F64, name: string, inline: Option<Members>,
                                      outer: Option<Members>, path: string)
    ensures Gives(ParseNamedType(toF64, name, inline, outer, path),
                  NamedErrors(name, MergeOptions(inline, outer), path))
    decreases Load(inline) + Load(outer) + 1, 2
  {
    var options := MergeOptions(inline, outer);
    MergeWeight(inline, outer);
    KindOfName(name);
    match NamedKind(Lowercase(name))
    case Some(EnumKind) => ValuesGive(None, options, path);
    case Some(ListKind) => ListGives(toF64, None, options, path);
    case Some(DictKind) => DictGives(toF64, None, options, path);
    case Some(OptionalKind) =>
      if "of" in options {
        LookupWeight(options, "of");
        TypeGives(toF64, options["of"], None, path + ".of");
      }
    case Some(StructKind) => StructGives(toF64, options, path);
    case _ => ScalarGives(toF64, name, inline, outer, path);
  }

  lemma {:induction false} ScalarGives(toF64: int -> F64, name: string, inline: Option<Members>,
                                       outer: Option<Members>, path: string)
    requires !SpellsContainer(name)
    ensures Gives(ParseNamedType(toF64, name, inline, outer, path),
                  NamedErrors(name, MergeOptions(inline, outer), path))
  {
    var options := MergeOptions(inline, outer);
    KindOfName(name);
    match NamedKind(Lowercase(name))
    case Some(IntKind) => BoundsGive(toF64, options, path);
    case Some(FloatKind) => BoundsGive(toF64, options, path);
    case Some(StringKind) => StringsGive(options, path);
    case _ =>
  }

  /** A type expression gives the first of its errors, and only if it has one. */
  lemma {:induction false} TypeGives(toF64: int -> F64, ty: Json, outer: Option<Members>, path: string)
    ensures Gives(ParseTypeExpr(toF64, ty, outer, path), TypeErrors(ty, MergeOptions(None, outer), path))
    decreases Weight(ty) + Load(outer), 4
  {
    var options := MergeOptions(None, outer);
    match ty
    case JString(name) => NamedGives(toF64, name, None, outer, path);
    case JObject(members) =>
      if "type" in members && members["type"].JString? {
        InlineWeight(members);
        var inline := InlineWithoutType(members);
        NamedGives(toF64, members["type"].s, Some(inline), outer, path);
        assert MergeOptions(Some(inline), outer) == options + inline;
      }
    case JArray(items) =>
      if items != [] && items[0].JString? {
        ArrayGives(toF64, items, outer, path);
      } else {
        UntaggedGives(toF64, items, outer, path);
      }
    case _ =>
  }

  lemma {:induction false} UntaggedGives(toF64: int -> F64, items: seq<Json>, outer: Option<Members>, path: string)
    requires items == [] || !items[0].JString?
    ensures Gives(ParseArrayType(toF64, items, outer, path), ArrayErrors(items, MergeOptions(None, outer), path))
  {
  }

  lemma {:induction false} ListArrayGives(toF64: int -> F64, items: seq<Json>, outer: Option<Members>, path: string)
    requires |items| >= 2 && items[0] == JString("list")
    ensures Gives(ParseArrayType(toF64, items, outer, path), ArrayErrors(items, MergeOptions(None, outer), path))
    decreases Weight(JArray(items)) + Load(outer), 2
  {
    ArrayFits(items, outer);
    MergedTwice(AsObject(ItemAt(items, 2)), outer);
    ArrayParsesList(toF64, items, outer, path);
    ListGives(toF64, Some(items[1]), MergeOptions(AsObject(ItemAt(items, 2)), outer), path);
  }

  lemma {:induction false} DictArrayGives(toF64: int -> F64, items: seq<Json>, outer: Option<Members>, path: string)
    requires |items| >= 2 && items[0] == JString("dict")
    ensures Gives(ParseArrayType(toF64, items, outer, path), ArrayErrors(items, MergeOptions(None, outer), path))
    decreases Weight(JArray(items)) + Load(outer), 2
  {
    ArrayFits(items, outer);
    MergedTwice(AsObject(ItemAt(items, 2)), outer);
    ArrayParsesDict(toF64, items, outer, path);
    DictGives(toF64, Some(items[1]), MergeOptions(AsObject(ItemAt(items, 2)), outer), path);
  }

  lemma {:induction false} OptionalArrayErrors(items: seq<Json>, options: Members, path: string)
    requires |items| >= 2 && items[0] == JString("optional")
    ensures ArrayErrors(items, options, path) == TypeErrors(items[1], options, path + ".optional")
  {
  }

  lemma {:induction false} OptionalArrayGives(toF64: int -> F64, items: seq<Json>, outer: Option<Members>, path: string)
    requires |items| >= 2 && items[0] == JString("optional")
    ensures Gives(ParseArrayType(toF64, items, outer, path), ArrayErrors(items, MergeOptions(None, outer), path))
    decreases Weight(JArray(items)) + Load(outer), 2
  {
    ArrayFits(items, outer);
    ArrayParsesOptional(toF64, items, outer, path);
    TypeGives(toF64, items[1], outer, path + ".optional");
    OptionalArrayErrors(items, MergeOptions(None, outer), path);
  }

  lemma {:induction false} EnumArrayGives(toF64: int -> F64, items: seq<Json>, outer: Option<Members>, path: string)
    requires items != [] && items[0] == JString("enum")
    ensures Gives(ParseArrayType(toF64, items, outer, path), ArrayErrors(items, MergeOptions(None, outer), path))
  {
    assert MergeOptions(outer, None) == MergeOptions(None, outer);
    ValuesGive(ItemAt(items, 1), MergeOptions(None, outer), path);
  }

  lemma {:induction false} StructArrayGives(toF64: int -> F64, items: seq<Json>, outer: Option<Members>, path: string)
    requires items != [] && items[0] == JString("struct")
    ensures Gives(ParseArrayType(toF64, items, outer, path), ArrayErrors(items, MergeOptions(None, outer), path))
    decreases Weight(JArray(items)) + Load(outer), 2
  {
    ArrayFits(items, outer);
    MergedTwice(AsObject(ItemAt(items, 1)), outer);
    ArrayParsesStruct(toF64, items, outer, path);
    StructGives(toF64, MergeOptions(AsObject(ItemAt(items, 1)), outer), path);
  }

  lemma {:induction false} NamedArrayGives(toF64: int -> F64, items: seq<Json>, outer: Option<Members>, path: string)
    requires items != [] && items[0].JString?
    requires items[0].s !in {"optional", "list", "dict", "enum", "struct"}
    ensures Gives(ParseArrayType(toF64, items, outer, path), ArrayErrors(items, MergeOptions(None, outer), path))
    decreases Weight(JArray(items)) + Load(outer), 2
  {
    ArrayFits(items, outer);
    NamedGives(toF64, items[0].s, None, outer, path);
  }

  lemma {:induction false} ArrayGives(toF64: int -> F64, items: seq<Json>, outer: Option<Members>, path: string)
    requires items != [] && items[0].JString?
    ensures Gives(ParseArrayType(toF64, items, outer, path), ArrayErrors(items, MergeOptions(None, outer), path))
    decreases Weight(JArray(items)) + Load(outer), 3
  {
    var tag := items[0].s;
    if tag == "enum" {
      EnumArrayGives(toF64, items, outer, path);
    } else if tag == "struct" {
      StructArrayGives(toF64, items, outer, path);
    } else if tag !in {"optional", "list", "dict"} {
      NamedArrayGives(toF64, items, outer, path);
    } else if |items| >= 2 {
      if tag == "optional" {
        OptionalArrayGives(toF64, items, outer, path);
      } else if tag == "list" {
        ListArrayGives(toF64, items, outer, path);
      } else {
        DictArrayGives(toF64, items, outer, path);
      }
    }
  }

  /** A document gives the first of its errors, and only if it has one. */
  lemma {:induction false} DocumentGives(toF64: int -> F64, document: Json)
    ensures Gives(ParseDocument(toF64, document), TypeErrors(document, map[], "$"))
  {
    TypeGives(toF64, document, None, "$");
    assert MergeOptions(None, None) == map[];
  }
}
