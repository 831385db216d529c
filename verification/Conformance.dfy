/** What a successful validation yields: an output of the schema's shape. */
module Conformance {
  import opened Values
  import opened Schema
  import opened Paths
  import opened Validation
  import opened Outcomes
  import opened Acceptance

  predicate ConformsPrimitive(primitive: PrimitiveType, out: Value) {
    match primitive
    case Any => StructFree(out)
    case Bool => out.Bool?
    case Int(c) => out.Int? && IntFits(out.i, c)
    case Float(c) => out.Float? && FloatFits(out.f, c)
    case String(c) => out.String? && StringFits(out.s, c)
    case Symbol => out.Symbol?
  }

  /** Outputs of a schema, when `option` is the extras option and `root` says
      whether it governs here. */
  predicate Conforms(option: ExtraBehavior, ty: TypeExpr, root: bool, out: Value)
    decreases ty
  {
    match ty
    case Primitive(primitive) => ConformsPrimitive(primitive, out)
    case Enum(variants) => out.Symbol? && out.name in variants
    case Optional(of) => out.Null? || Conforms(option, of, root, out)
    case List(of, c) =>
      && out.List?
      && SizeFits(|out.items|, c.minSize, c.maxSize)
      && forall i | 0 <= i < |out.items| :: Conforms(option, of, false, out.items[i])
    case Dict(of, c) =>
      && out.Dict?
      && SizeFits(|out.entries|, c.minSize, c.maxSize)
      && forall i | 0 <= i < |out.entries| :: Conforms(option, of, false, out.entries[i].value)
    case Struct(fields, extra) =>
      && out.Struct?
      && out.names == FieldNames(fields)
      && |out.fields| == |fields|
      && (forall i | 0 <= i < |fields| ::
            match out.fields[i]
            case Some(x) => Conforms(option, fields[i].ty, false, x)
            case None => fields[i].presence.Optional?)
      && (out.extras != [] ==> (if root then option else extra).Allow?)
      && forall k | 0 <= k < |out.extras| ::
           out.extras[k].key !in out.names && StructFree(out.extras[k].value)
  }

  lemma PrimitiveConforms(env: Env, primitive: PrimitiveType, path: Path, v: Value)
    requires StructFree(v) && ValidatePrimitive(env, primitive, path, v).issues == []
    ensures ValidatePrimitive(env, primitive, path, v).value.Some?
    ensures ConformsPrimitive(primitive, ValidatePrimitive(env, primitive, path, v).value.value)
  {
    PrimitiveExact(env, primitive, path, v);
  }

  lemma {:induction false} ItemsConform(env: Env, of: TypeExpr, path: Path, items: seq<Value>)
    requires forall i | 0 <= i < |items| :: StructFree(items[i])
    requires Collect(ItemOutcomes(env, of, path, items)).issues == []
    ensures var out := Collect(ItemOutcomes(env, of, path, items)).values;
            |out| == |items| && forall i | 0 <= i < |out| :: Conforms(env.extraBehavior, of, false, out[i])
    decreases of, 3
  {
    var outcomes := ItemOutcomes(env, of, path, items);
    CollectClean(outcomes);
    ItemsExact(env, of, path, items);
    CollectCount(outcomes);
    forall i | 0 <= i < |items| ensures Conforms(env.extraBehavior, of, false, Collect(outcomes).values[i]) {
      assert outcomes[i] == ItemOutcome(env, of, path, i, items[i]);
      SuccessConforms(env, of, path + [Index(i)], items[i]);
    }
  }

  lemma {:induction false} EntriesConform(env: Env, of: TypeExpr, path: Path, entries: seq<Entry>)
    requires forall i | 0 <= i < |entries| :: StructFree(entries[i].value)
    requires Collect(EntryOutcomes(env, of, path, entries)).issues == []
    ensures var out := Collect(EntryOutcomes(env, of, path, entries)).values;
            && Keys(out) == Keys(entries)
            && forall i | 0 <= i < |out| :: Conforms(env.extraBehavior, of, false, out[i].value)
    decreases of, 3
  {
    var outcomes := EntryOutcomes(env, of, path, entries);
    CollectClean(outcomes);
    EntriesExact(env, of, path, entries);
    CollectCount(outcomes);
    var out := Collect(outcomes).values;
    forall i | 0 <= i < |entries|
      ensures out[i].key == entries[i].key && Conforms(env.extraBehavior, of, false, out[i].value)
    {
      assert outcomes[i] == EntryOutcome(env, of, path, entries[i]);
      SuccessConforms(env, of, path + [Key(entries[i].key)], entries[i].value);
    }
    assert Keys(out) == Keys(entries);
  }

  lemma {:induction false} FindStructFree(entries: seq<Entry>, key: string)
    requires forall i | 0 <= i < |entries| :: StructFree(entries[i].value)
    requires DictFind(entries, key).Some?
    ensures StructFree(DictFind(entries, key).value)
  {
    var k := DictFindIndex(entries, key);
  }

  lemma {:induction false} FieldsConform(env: Env, ty: TypeExpr, path: Path, entries: seq<Entry>)
    requires ty.Struct? && forall i | 0 <= i < |entries| :: StructFree(entries[i].value)
    requires Collect(FieldOutcomes(env, ty, path, entries)).issues == []
    ensures var slots := Collect(FieldOutcomes(env, ty, path, entries)).values;
            && |slots| == |ty.fields|
            && forall i | 0 <= i < |slots| ::
                 match slots[i]
                 case Some(x) => Conforms(env.extraBehavior, ty.fields[i].ty, false, x)
                 case None => ty.fields[i].presence.Optional?
    decreases ty, 1
  {
    var outcomes := FieldOutcomes(env, ty, path, entries);
    CollectClean(outcomes);
    CollectCount(outcomes);
    forall i | 0 <= i < |ty.fields|
      ensures match outcomes[i].value.value
              case Some(x) => Conforms(env.extraBehavior, ty.fields[i].ty, false, x)
              case None => ty.fields[i].presence.Optional?
    {
      var field := ty.fields[i];
      assert outcomes[i] == FieldOutcome(env, field, path, entries);
      if DictFind(entries, field.name).Some? {
        FindStructFree(entries, field.name);
        SuccessConforms(env, field.ty, path + [Key(field.name)], DictFind(entries, field.name).value);
      }
    }
  }

  /** Kept extras are input entries under undeclared names, kept only by Allow. */
  lemma ExtrasConform(names: seq<string>, extra: ExtraBehavior, path: Path, entries: seq<Entry>)
    ensures var out := Collect(ExtraOutcomes(names, extra, path, entries)).values;
            && (out != [] ==> extra.Allow?)
            && forall k | 0 <= k < |out| :: out[k] in entries && out[k].key !in names
  {
    var outcomes := ExtraOutcomes(names, extra, path, entries);
    var out := Collect(outcomes).values;
    forall k | 0 <= k < |out| ensures out[k] in entries && out[k].key !in names && extra.Allow? {
      var i := CollectValueOrigin(outcomes, k);
      assert outcomes[i] == ExtraOutcome(names, extra, path, entries[i]);
    }
    if out != [] {
      assert out[0] in entries;
    }
  }

  /** Success is sound: a validation that reports nothing yields an output, and
      that output conforms to the schema. */
  lemma {:induction false} SuccessConforms(env: Env, ty: TypeExpr, path: Path, v: Value)
    requires StructFree(v) && Validate(env, ty, path, v).issues == []
    ensures Validate(env, ty, path, v).value.Some?
    ensures Conforms(env.extraBehavior, ty, path == [], Validate(env, ty, path, v).value.value)
    decreases ty, 2
  {
    NoSilentFailure(env, ty, path, v);
    match ty
    case Primitive(primitive) => PrimitiveConforms(env, primitive, path, v);
    case Enum(_) =>
    case Optional(of) =>
      if !v.Null? {
        SuccessConforms(env, of, path, v);
      }
    case List(of, c) =>
      var r := Collect(ItemOutcomes(env, of, path, v.items));
      ItemsConform(env, of, path, v.items);
      SizesExact(path, |r.values|, c.minSize, c.maxSize);
    case Dict(of, c) =>
      var r := Collect(EntryOutcomes(env, of, path, v.entries));
      EntriesConform(env, of, path, v.entries);
      SizesExact(path, |r.values|, c.minSize, c.maxSize);
    case Struct(fields, extra) =>
      FieldsConform(env, ty, path, v.entries);
      ExtrasConform(FieldNames(fields), EffectiveExtra(env, extra, path), path, v.entries);
  }

  lemma DistinctSnoc(front: seq<Entry>, e: Entry)
    requires Distinct(Keys(front)) && forall k | 0 <= k < |front| :: front[k].key != e.key
    ensures Distinct(Keys(front + [e]))
  {
    assert Keys(front + [e]) == Keys(front) + [e.key];
  }

  /** Of the entries of a dict with distinct keys, extras keep distinct keys. */
  lemma {:induction false} ExtrasDistinct(names: seq<string>, extra: ExtraBehavior, path: Path,
                                          entries: seq<Entry>, n: nat)
    requires Distinct(Keys(entries)) && n <= |entries|
    ensures var out := CollectFirst(ExtraOutcomes(names, extra, path, entries), n).values;
            && Distinct(Keys(out))
            && forall k | 0 <= k < |out| :: out[k] in entries[..n]
  {
    if n > 0 {
      ExtrasDistinct(names, extra, path, entries, n - 1);
      var outcomes := ExtraOutcomes(names, extra, path, entries);
      var front := CollectFirst(outcomes, n - 1).values;
      var out := CollectFirst(outcomes, n).values;
      assert outcomes[n - 1] == ExtraOutcome(names, extra, path, entries[n - 1]);
      if |out| == |front| {
        assert out == front;
      } else {
        assert out == front + [entries[n - 1]];
        forall k | 0 <= k < |front| ensures front[k].key != entries[n - 1].key {
          var j :| 0 <= j < n - 1 && entries[..n - 1][j] == front[k];
          assert Keys(entries)[j] == entries[j].key && Keys(entries)[n - 1] == entries[n - 1].key;
        }
        DistinctSnoc(front, entries[n - 1]);
      }
    }
  }

  lemma {:induction false} FindKeysDistinct(entries: seq<Entry>, key: string)
    requires forall i | 0 <= i < |entries| :: KeysDistinct(entries[i].value)
    requires DictFind(entries, key).Some?
    ensures KeysDistinct(DictFind(entries, key).value)
  {
    var k := DictFindIndex(entries, key);
  }

  lemma {:induction false} FieldsStayDistinct(env: Env, ty: TypeExpr, path: Path, entries: seq<Entry>)
    requires ty.Struct? && NamesDistinct(ty)
    requires forall i | 0 <= i < |entries| :: KeysDistinct(entries[i].value) && StructFree(entries[i].value)
    requires Collect(FieldOutcomes(env, ty, path, entries)).issues == []
    ensures var slots := Collect(FieldOutcomes(env, ty, path, entries)).values;
            forall i | 0 <= i < |slots| :: slots[i].Some? ==> KeysDistinct(slots[i].value)
    decreases ty, 1
  {
    var outcomes := FieldOutcomes(env, ty, path, entries);
    CollectClean(outcomes);
    CollectCount(outcomes);
    forall i | 0 <= i < |ty.fields|
      ensures outcomes[i].value.value.Some? ==> KeysDistinct(outcomes[i].value.value.value)
    {
      var field := ty.fields[i];
      assert outcomes[i] == FieldOutcome(env, field, path, entries);
      if DictFind(entries, field.name).Some? {
        FindStructFree(entries, field.name);
        FindKeysDistinct(entries, field.name);
        OutputsStayDistinct(env, field.ty, path + [Key(field.name)], DictFind(entries, field.name).value);
      }
    }
  }

  lemma {:induction false} ItemsStayDistinct(env: Env, of: TypeExpr, path: Path, items: seq<Value>)
    requires NamesDistinct(of) && Collect(ItemOutcomes(env, of, path, items)).issues == []
    requires forall i | 0 <= i < |items| :: StructFree(items[i]) && KeysDistinct(items[i])
    ensures var out := Collect(ItemOutcomes(env, of, path, items)).values;
            forall i | 0 <= i < |out| :: KeysDistinct(out[i])
    decreases of, 3
  {
    var outcomes := ItemOutcomes(env, of, path, items);
    CollectClean(outcomes);
    ItemsConform(env, of, path, items);
    CollectCount(outcomes);
    forall i | 0 <= i < |items| ensures KeysDistinct(Collect(outcomes).values[i]) {
      assert outcomes[i] == ItemOutcome(env, of, path, i, items[i]);
      OutputsStayDistinct(env, of, path + [Index(i)], items[i]);
    }
  }

  lemma {:induction false} EntriesStayDistinct(env: Env, of: TypeExpr, path: Path, entries: seq<Entry>)
    requires NamesDistinct(of) && Collect(EntryOutcomes(env, of, path, entries)).issues == []
    requires Distinct(Keys(entries))
    requires forall i | 0 <= i < |entries| :: StructFree(entries[i].value) && KeysDistinct(entries[i].value)
    ensures KeysDistinct(Value.Dict(Collect(EntryOutcomes(env, of, path, entries)).values))
    decreases of, 3
  {
    var outcomes := EntryOutcomes(env, of, path, entries);
    CollectClean(outcomes);
    EntriesConform(env, of, path, entries);
    CollectCount(outcomes);
    var out := Collect(outcomes).values;
    assert |Keys(out)| == |entries|;
    forall i | 0 <= i < |entries| ensures KeysDistinct(out[i].value) {
      assert outcomes[i] == EntryOutcome(env, of, path, entries[i]);
      OutputsStayDistinct(env, of, path + [Key(entries[i].key)], entries[i].value);
    }
  }

  /** Distinct keys in, distinct names declared: distinct keys out. */
  lemma {:induction false} OutputsStayDistinct(env: Env, ty: TypeExpr, path: Path, v: Value)
    requires StructFree(v) && KeysDistinct(v) && NamesDistinct(ty)
    requires Validate(env, ty, path, v).issues == []
    ensures Validate(env, ty, path, v).value.Some?
    ensures KeysDistinct(Validate(env, ty, path, v).value.value)
    decreases ty, 2
  {
    NoSilentFailure(env, ty, path, v);
    match ty
    case Primitive(_) =>
    case Enum(_) =>
    case Optional(of) =>
      if !v.Null? {
        OutputsStayDistinct(env, of, path, v);
      }
    case List(of, _) => ItemsStayDistinct(env, of, path, v.items);
    case Dict(of, _) => EntriesStayDistinct(env, of, path, v.entries);
    case Struct(fields, extra) =>
      FieldsStayDistinct(env, ty, path, v.entries);
      ExtrasDistinct(FieldNames(fields), EffectiveExtra(env, extra, path), path, v.entries, |v.entries|);
  }
}
