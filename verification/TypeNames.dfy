/** The type names of a schema document, letter by letter, and what each means. */
module TypeNames {
  import opened Wrappers
  import opened Values
  import opened Schema
  import opened Json
  import opened Validation
  import opened SchemaParser
  import opened SurfaceForms
  import opened Spelling

  /** `name` is the lower-case `word` in whatever case. */
  predicate Spells(name: string, word: string) {
    && |name| == |word|
    && forall i | 0 <= i < |word| ::
         name[i] == word[i] || ('a' <= word[i] <= 'z' && name[i] as int == word[i] as int - 32)
  }

  predicate LowerLetters(word: string) {
    forall i | 0 <= i < |word| :: 'a' <= word[i] <= 'z'
  }

  lemma {:induction false} LowercaseSpells(name: string, word: string)
    requires LowerLetters(word)
    ensures Lowercase(name) == word <==> Spells(name, word)
  {
    if Spells(name, word) {
      forall i | 0 <= i < |name| ensures Lowercase(name)[i] == word[i] {
        assert name[i] == word[i] || name[i] as int == word[i] as int - 32;
      }
    }
    if Lowercase(name) == word {
      forall i | 0 <= i < |word| ensures name[i] == word[i] || name[i] as int == word[i] as int - 32 {
        assert Lowercase(name)[i] == word[i];
      }
    }
  }

  predicate SpellsAny(name: string) {
    Spells(name, "any")
  }

  predicate SpellsBool(name: string) {
    Spells(name, "bool") || Spells(name, "boolean")
  }

  predicate SpellsInt(name: string) {
    Spells(name, "int") || Spells(name, "integer")
  }

  predicate SpellsFloat(name: string) {
    Spells(name, "float") || Spells(name, "double")
  }

  predicate SpellsString(name: string) {
    Spells(name, "str") || Spells(name, "string")
  }

  predicate SpellsSymbol(name: string) {
    Spells(name, "sym") || Spells(name, "symbol")
  }

  predicate SpellsContainer(name: string) {
    || Spells(name, "enum") || Spells(name, "list") || Spells(name, "dict")
    || Spells(name, "optional") || Spells(name, "struct")
  }

  lemma {:induction false} ScalarWords(name: string)
    ensures Lowercase(name) == "any" <==> Spells(name, "any")
    ensures Lowercase(name) == "bool" <==> Spells(name, "bool")
    ensures Lowercase(name) == "boolean" <==> Spells(name, "boolean")
    ensures Lowercase(name) == "int" <==> Spells(name, "int")
    ensures Lowercase(name) == "integer" <==> Spells(name, "integer")
    ensures Lowercase(name) == "float" <==> Spells(name, "float")
    ensures Lowercase(name) == "double" <==> Spells(name, "double")
  {
    LowercaseSpells(name, "any");
    LowercaseSpells(name, "bool");
    LowercaseSpells(name, "boolean");
    LowercaseSpells(name, "int");
    LowercaseSpells(name, "integer");
    LowercaseSpells(name, "float");
    LowercaseSpells(name, "double");
  }

  lemma {:induction false} TextWords(name: string)
    ensures Lowercase(name) == "str" <==> Spells(name, "str")
    ensures Lowercase(name) == "string" <==> Spells(name, "string")
    ensures Lowercase(name) == "sym" <==> Spells(name, "sym")
    ensures Lowercase(name) == "symbol" <==> Spells(name, "symbol")
  {
    LowercaseSpells(name, "str");
    LowercaseSpells(name, "string");
    LowercaseSpells(name, "sym");
    LowercaseSpells(name, "symbol");
  }

  lemma {:induction false} ContainerWords(name: string)
    ensures Lowercase(name) == "enum" <==> Spells(name, "enum")
    ensures Lowercase(name) == "list" <==> Spells(name, "list")
    ensures Lowercase(name) == "dict" <==> Spells(name, "dict")
    ensures Lowercase(name) == "optional" <==> Spells(name, "optional")
    ensures Lowercase(name) == "struct" <==> Spells(name, "struct")
  {
    LowercaseSpells(name, "enum");
    LowercaseSpells(name, "list");
    LowercaseSpells(name, "dict");
    LowercaseSpells(name, "optional");
    LowercaseSpells(name, "struct");
  }

  /** Each name stands for one kind, whatever its case; no other name for any. */
  lemma {:induction false} KindOfName(name: string)
    ensures NamedKind(Lowercase(name)) == Some(AnyKind) <==> SpellsAny(name)
    ensures NamedKind(Lowercase(name)) == Some(BoolKind) <==> SpellsBool(name)
    ensures NamedKind(Lowercase(name)) == Some(IntKind) <==> SpellsInt(name)
    ensures NamedKind(Lowercase(name)) == Some(FloatKind) <==> SpellsFloat(name)
    ensures NamedKind(Lowercase(name)) == Some(StringKind) <==> SpellsString(name)
    ensures NamedKind(Lowercase(name)) == Some(SymbolKind) <==> SpellsSymbol(name)
    ensures NamedKind(Lowercase(name)) == Some(EnumKind) <==> Spells(name, "enum")
    ensures NamedKind(Lowercase(name)) == Some(ListKind) <==> Spells(name, "list")
    ensures NamedKind(Lowercase(name)) == Some(DictKind) <==> Spells(name, "dict")
    ensures NamedKind(Lowercase(name)) == Some(OptionalKind) <==> Spells(name, "optional")
    ensures NamedKind(Lowercase(name)) == Some(StructKind) <==> Spells(name, "struct")
    ensures NamedKind(Lowercase(name)) == None
       <==> !SpellsAny(name) && !SpellsBool(name) && !SpellsInt(name) && !SpellsFloat(name) && !SpellsString(name)
            && !SpellsSymbol(name) && !SpellsContainer(name)
  {
    ScalarWords(name);
    TextWords(name);
    ContainerWords(name);
  }

  /** A name spelled anyhow, with these options. */
  lemma {:induction false} NamedAsKind(toF64: int -> F64, name: string, options: Members, path: string)
    requires "type" !in options
    ensures ParseTypeExpr(toF64, Named(name, options), None, path)
         == ParseNamedType(toF64, name, Some(options), None, path)
    ensures ParseTypeExpr(toF64, JString(name), Some(options), path)
         == ParseNamedType(toF64, name, None, Some(options), path)
    ensures MergeOptions(Some(options), None) == options && MergeOptions(None, Some(options)) == options
  {
    NamedParses(toF64, name, options, path);
    MergeOne(options);
  }

  /** A document names its type in two ways: inline, or bare with field options. */
  predicate BothParse(toF64: int -> F64, name: string, options: Members, path: string, ty: TypeExpr) {
    && ParseTypeExpr(toF64, Named(name, options), None, path) == Success(ty)
    && ParseTypeExpr(toF64, JString(name), Some(options), path) == Success(ty)
  }

  /** "any", "bool", "boolean", "sym" and "symbol", whatever the options. */
  lemma {:induction false} PlainNames(toF64: int -> F64, name: string, options: Members, path: string)
    requires "type" !in options
    ensures SpellsAny(name) ==> BothParse(toF64, name, options, path, TypeExpr.Primitive(PrimitiveType.Any))
    ensures SpellsBool(name) ==> BothParse(toF64, name, options, path, TypeExpr.Primitive(PrimitiveType.Bool))
    ensures SpellsSymbol(name) ==> BothParse(toF64, name, options, path, TypeExpr.Primitive(PrimitiveType.Symbol))
  {
    KindOfName(name);
    NamedAsKind(toF64, name, options, path);
  }

  /** "int" and "integer", with their bounds. */
  lemma {:induction false} IntNames(toF64: int -> F64, name: string, c: IntConstraints, path: string)
    requires SpellsInt(name)
    ensures BothParse(toF64, name, SpellInts(c), path, TypeExpr.Primitive(PrimitiveType.Int(c)))
  {
    KindOfName(name);
    NamedAsKind(toF64, name, SpellInts(c), path);
    IntsParse(c, path);
  }

  /** "float" and "double", with their bounds. */
  lemma {:induction false} FloatNames(toF64: int -> F64, name: string, c: FloatConstraints, path: string)
    requires SpellsFloat(name) && FiniteIf(c.min) && FiniteIf(c.max)
    ensures BothParse(toF64, name, SpellFloats(c), path, TypeExpr.Primitive(PrimitiveType.Float(c)))
  {
    KindOfName(name);
    NamedAsKind(toF64, name, SpellFloats(c), path);
    FloatsParse(toF64, c, path);
  }

  /** Integers too are float bounds, each converted. */
  lemma {:induction false} IntegerBounds(toF64: int -> F64, name: string, min: Number, max: Number, path: string)
    requires SpellsFloat(name) && !min.Fraction? && !max.Fraction?
    ensures BothParse(toF64, name, map["min" := JNumber(min), "max" := JNumber(max)], path,
              TypeExpr.Primitive(PrimitiveType.Float(FloatConstraints(
                Some(toF64(if min.Unsigned? then min.n else min.i)),
                Some(toF64(if max.Unsigned? then max.n else max.i))))))
  {
    var options := map["min" := JNumber(min), "max" := JNumber(max)];
    KindOfName(name);
    NamedAsKind(toF64, name, options, path);
    assert Lookup(options, "min") == Some(JNumber(min)) && Lookup(options, "max") == Some(JNumber(max));
  }

  /** "str" and "string", with sizes and format. */
  lemma {:induction false} StringNames(toF64: int -> F64, name: string, c: StringConstraints, path: string)
    requires SpellsString(name)
    ensures BothParse(toF64, name, SpellStrings(c), path, TypeExpr.Primitive(PrimitiveType.String(c)))
  {
    KindOfName(name);
    NamedAsKind(toF64, name, SpellStrings(c), path);
    StringsParse(c, path);
  }

  /** These options spell these sizes, whatever else they hold. */
  predicate SpellsSizes(options: Members, c: CollectionConstraints) {
    && Lookup(options, "min_size") == Mapped(c.minSize, SpellSize)
    && Lookup(options, "max_size") == Mapped(c.maxSize, SpellSize)
  }

  /** The option `first`, or without it `second`. */
  predicate Chosen(options: Members, first: string, second: string, j: Json) {
    (first in options && options[first] == j) || (first !in options && second in options && options[second] == j)
  }

  lemma {:induction false} DictByName(toF64: int -> F64, name: string, options: Members, path: string)
    requires Spells(name, "dict") && "type" !in options
    ensures ParseTypeExpr(toF64, Named(name, options), None, path) == ParseDictType(toF64, None, options, path)
    ensures ParseTypeExpr(toF64, JString(name), Some(options), path) == ParseDictType(toF64, None, options, path)
  {
    KindOfName(name);
    NamedAsKind(toF64, name, options, path);
  }

  lemma {:induction false} ListByName(toF64: int -> F64, name: string, options: Members, path: string)
    requires Spells(name, "list") && "type" !in options
    ensures ParseTypeExpr(toF64, Named(name, options), None, path) == ParseListType(toF64, None, options, path)
    ensures ParseTypeExpr(toF64, JString(name), Some(options), path) == ParseListType(toF64, None, options, path)
  {
    KindOfName(name);
    NamedAsKind(toF64, name, options, path);
  }

  lemma {:induction false} StructByName(toF64: int -> F64, name: string, options: Members, path: string)
    requires Spells(name, "struct") && "type" !in options
    ensures ParseTypeExpr(toF64, Named(name, options), None, path) == ParseStructType(toF64, options, path)
    ensures ParseTypeExpr(toF64, JString(name), Some(options), path) == ParseStructType(toF64, options, path)
  {
    KindOfName(name);
    NamedAsKind(toF64, name, options, path);
  }

  /** "enum", its values under "values" or, without these, under "in". */
  lemma {:induction false} EnumName(toF64: int -> F64, name: string, options: Members, variants: seq<string>, path: string)
    requires Spells(name, "enum") && "type" !in options && variants != [] && Distinct(variants)
    requires Chosen(options, "values", "in", SpellVariants(variants))
    ensures BothParse(toF64, name, options, path, TypeExpr.Enum(variants))
  {
    KindOfName(name);
    NamedAsKind(toF64, name, options, path);
    VariantsParse(variants, path);
  }

  /** "list", its elements under "of" or, without it, under "item". */
  lemma {:induction false} ListName(toF64: int -> F64, name: string, options: Members, of: Json, ty: TypeExpr,
                                    c: CollectionConstraints, path: string)
    requires Spells(name, "list") && "type" !in options
    requires Chosen(options, "of", "item", of) && ParseTypeExpr(toF64, of, None, path + ".of") == Success(ty)
    requires SpellsSizes(options, c)
    ensures BothParse(toF64, name, options, path, TypeExpr.List(ty, c))
  {
    ListByName(toF64, name, options, path);
    SizesParse(c.minSize, c.maxSize, options, path);
  }

  /** "dict", its values under "values" or, without it, under "value". */
  lemma {:induction false} DictName(toF64: int -> F64, name: string, options: Members, of: Json, ty: TypeExpr,
                                    c: CollectionConstraints, path: string)
    requires Spells(name, "dict") && "type" !in options
    requires Chosen(options, "values", "value", of) && ParseTypeExpr(toF64, of, None, path + ".values") == Success(ty)
    requires SpellsSizes(options, c)
    ensures BothParse(toF64, name, options, path, TypeExpr.Dict(ty, c))
  {
    DictByName(toF64, name, options, path);
    SizesParse(c.minSize, c.maxSize, options, path);
  }

  /** "optional", its inner type under "of". */
  lemma {:induction false} OptionalName(toF64: int -> F64, name: string, options: Members, ty: TypeExpr, path: string)
    requires Spells(name, "optional") && "type" !in options && "of" in options
    requires ParseTypeExpr(toF64, options["of"], None, path + ".of") == Success(ty)
    ensures BothParse(toF64, name, options, path, TypeExpr.Optional(ty))
  {
    KindOfName(name);
    NamedAsKind(toF64, name, options, path);
  }

  /** "struct", its fields under "fields" and its policy under "extra", which is
      to forbid unless given. */
  lemma {:induction false} StructName(toF64: int -> F64, name: string, options: Members, fields: seq<FieldExpr>,
                                      extra: ExtraBehavior, path: string)
    requires Spells(name, "struct") && "type" !in options && "fields" in options && options["fields"].JArray?
    requires ParseFields(toF64, options["fields"].items, path, |options["fields"].items|) == Success(fields)
    requires if "extra" in options then options["extra"] == SpellExtra(extra) else extra == Forbid
    ensures BothParse(toF64, name, options, path, TypeExpr.Struct(fields, extra))
  {
    StructByName(toF64, name, options, path);
    assert ParseExtra(Lookup(options, "extra"), path) == Success(extra);
  }

  /** Any other name is unknown, and named in the error as it stands if it has no
      capital letters. */
  lemma {:induction false} OtherNames(toF64: int -> F64, name: string, options: Members, path: string)
    requires "type" !in options && !SpellsAny(name) && !SpellsBool(name) && !SpellsInt(name) && !SpellsFloat(name)
    requires !SpellsString(name) && !SpellsSymbol(name) && !SpellsContainer(name)
    ensures exists lower ::
              && ParseTypeExpr(toF64, Named(name, options), None, path) == Failure(InvalidSchema(path, UnknownType(lower)))
              && |lower| == |name|
              && (forall i | 0 <= i < |name| ::
                    lower[i] == if 'A' <= name[i] <= 'Z' then (name[i] as int + 32) as char else name[i])
    ensures ParseTypeExpr(toF64, JString(name), Some(options), path)
         == ParseTypeExpr(toF64, Named(name, options), None, path)
  {
    KindOfName(name);
    NamedAsKind(toF64, name, options, path);
    var lower := Lowercase(name);
    assert ParseTypeExpr(toF64, Named(name, options), None, path) == Failure(InvalidSchema(path, UnknownType(lower)));
    assert |lower| == |name|;
  }
}
