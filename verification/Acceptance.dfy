/** Which values a schema accepts, said without running anything, and the
    proof that the engine reports no issue for exactly those. */
module Acceptance {
  import opened Wrappers
  import opened Values
  import opened Schema
  import opened Paths
  import opened Validation
  import opened Outcomes

  predicate IntFits(i: I64, c: IntConstraints) {
    && (c.min.Some? ==> c.min.value <= i)
    && (c.max.Some? ==> i <= c.max.value)
  }

  /** Not below the minimum, not above the maximum: NaN is neither. */
  predicate FloatFits(f: F64, c: FloatConstraints) {
    && (c.min.Some? ==> !Less(f, c.min.value))
    && (c.max.Some? ==> !Less(c.max.value, f))
  }

  predicate SizeFits(n: nat, minSize: Option<Usize>, maxSize: Option<Usize>) {
    && (minSize.Some? ==> minSize.value <= n)
    && (maxSize.Some? ==> n <= maxSize.value)
  }

  predicate StringFits(s: string, c: StringConstraints) {
    && SizeFits(|s|, c.minSize, c.maxSize)
    && (c.format.Some? ==> HasFormat(c.format.value, s))
  }

  predicate AcceptsPrimitive(env: Env, primitive: PrimitiveType, v: Value) {
    var text := v.String? && !env.strict;
    match primitive
    case Any => true
    case Bool => v.Bool? || (text && ReadBool(v.s).Some?)
    case Int(c) =>
      || (v.Int? && IntFits(v.i, c))
      || (text && match env.runtime.parseI64(env.runtime.trim(v.s))
                  case Some(i) => IntFits(i, c)
                  case None => false)
    case Float(c) =>
      || (v.Float? && FloatFits(v.f, c))
      || (v.Int? && FloatFits(env.runtime.intToF64(v.i), c))
      || (text && match env.runtime.parseF64(env.runtime.trim(v.s))
                  case Some(f) => FloatFits(f, c)
                  case None => false)
    case String(c) => v.String? && StringFits(v.s, c)
    case Symbol => v.Symbol? || text
  }

  /** Sizes are those of the input, although the engine measures what is left
      after dropping invalid elements. `root` is true where no path leads. */
  predicate Accepts(env: Env, ty: TypeExpr, root: bool, v: Value)
    decreases ty
  {
    match ty
    case Primitive(primitive) => AcceptsPrimitive(env, primitive, v)
    case Enum(variants) =>
      || (v.Symbol? && v.name in variants)
      || (v.String? && !env.strict && v.s in variants)
    case Optional(of) => v.Null? || Accepts(env, of, root, v)
    case List(of, c) =>
      && v.List?
      && SizeFits(|v.items|, c.minSize, c.maxSize)
      && forall i | 0 <= i < |v.items| :: Accepts(env, of, false, v.items[i])
    case Dict(of, c) =>
      && v.Dict?
      && SizeFits(|v.entries|, c.minSize, c.maxSize)
      && forall i | 0 <= i < |v.entries| :: Accepts(env, of, false, v.entries[i].value)
    case Struct(fields, extra) =>
      && v.Dict?
      && (forall i | 0 <= i < |fields| ::
            match DictFind(v.entries, fields[i].name)
            case Some(x) => Accepts(env, fields[i].ty, false, x)
            case None => fields[i].presence.Optional?)
      && ((if root then env.extraBehavior else extra).Forbid? ==>
            forall k | 0 <= k < |v.entries| :: v.entries[k].key in FieldNames(fields))
  }

  /** A sub-validation that yields no value has said why. */
  lemma {:induction false} NoSilentFailure(env: Env, ty: TypeExpr, path: Path, v: Value)
    ensures Validate(env, ty, path, v).issues == [] ==> Validate(env, ty, path, v).value.Some?
  {
    match ty
    case Optional(of) =>
      if !v.Null? {
        NoSilentFailure(env, of, path, v);
      }
    case _ =>
  }

  lemma SizesExact(path: Path, n: nat, minSize: Option<Usize>, maxSize: Option<Usize>)
    ensures SizeIssues(path, n, minSize, maxSize) == [] <==> SizeFits(n, minSize, maxSize)
  {
  }

  lemma PrimitiveExact(env: Env, primitive: PrimitiveType, path: Path, v: Value)
    ensures ValidatePrimitive(env, primitive, path, v).issues == [] <==> AcceptsPrimitive(env, primitive, v)
  {
    match primitive
    case String(c) =>
      if v.String? {
        SizesExact(path, |v.s|, c.minSize, c.maxSize);
      }
    case _ =>
  }

  /** Collected values keep their number when nothing was reported. */
  lemma CleanKeepsAll<T>(outcomes: seq<Outcome<T>>)
    requires Collect(outcomes).issues == []
    requires forall i | 0 <= i < |outcomes| :: outcomes[i].issues == [] ==> outcomes[i].value.Some?
    ensures |Collect(outcomes).values| == |outcomes|
  {
    CollectClean(outcomes);
    CollectCount(outcomes);
  }

  lemma {:induction false} ItemsExact(env: Env, of: TypeExpr, path: Path, items: seq<Value>)
    ensures Collect(ItemOutcomes(env, of, path, items)).issues == []
       <==> forall i | 0 <= i < |items| :: Accepts(env, of, false, items[i])
    ensures Collect(ItemOutcomes(env, of, path, items)).issues == [] ==>
              |Collect(ItemOutcomes(env, of, path, items)).values| == |items|
    decreases of, 3
  {
    var outcomes := ItemOutcomes(env, of, path, items);
    forall i | 0 <= i < |items|
      ensures outcomes[i].issues == [] <==> Accepts(env, of, false, items[i])
      ensures outcomes[i].issues == [] ==> outcomes[i].value.Some?
    {
      assert outcomes[i] == ItemOutcome(env, of, path, i, items[i]);
      AcceptanceIsExact(env, of, path + [Index(i)], items[i]);
      NoSilentFailure(env, of, path + [Index(i)], items[i]);
    }
    CollectClean(outcomes);
    if Collect(outcomes).issues == [] {
      CleanKeepsAll(outcomes);
    }
  }

  lemma {:induction false} EntriesExact(env: Env, of: TypeExpr, path: Path, entries: seq<Entry>)
    ensures Collect(EntryOutcomes(env, of, path, entries)).issues == []
       <==> forall i | 0 <= i < |entries| :: Accepts(env, of, false, entries[i].value)
    ensures Collect(EntryOutcomes(env, of, path, entries)).issues == [] ==>
              |Collect(EntryOutcomes(env, of, path, entries)).values| == |entries|
    decreases of, 3
  {
    var outcomes := EntryOutcomes(env, of, path, entries);
    forall i | 0 <= i < |entries|
      ensures outcomes[i].issues == [] <==> Accepts(env, of, false, entries[i].value)
      ensures outcomes[i].issues == [] ==> outcomes[i].value.Some?
    {
      assert outcomes[i] == EntryOutcome(env, of, path, entries[i]);
      AcceptanceIsExact(env, of, path + [Key(entries[i].key)], entries[i].value);
      NoSilentFailure(env, of, path + [Key(entries[i].key)], entries[i].value);
    }
    CollectClean(outcomes);
    if Collect(outcomes).issues == [] {
      CleanKeepsAll(outcomes);
    }
  }

  lemma {:induction false} FieldsExact(env: Env, ty: TypeExpr, path: Path, entries: seq<Entry>)
    requires ty.Struct?
    ensures Collect(FieldOutcomes(env, ty, path, entries)).issues == []
       <==> forall i | 0 <= i < |ty.fields| ::
              match DictFind(entries, ty.fields[i].name)
              case Some(x) => Accepts(env, ty.fields[i].ty, false, x)
              case None => ty.fields[i].presence.Optional?
    decreases ty, 1
  {
    var outcomes := FieldOutcomes(env, ty, path, entries);
    forall i | 0 <= i < |ty.fields|
      ensures outcomes[i].issues == [] <==>
              match DictFind(entries, ty.fields[i].name)
              case Some(x) => Accepts(env, ty.fields[i].ty, false, x)
              case None => ty.fields[i].presence.Optional?
    {
      var field := ty.fields[i];
      assert outcomes[i] == FieldOutcome(env, field, path, entries);
      match DictFind(entries, field.name)
      case Some(x) => AcceptanceIsExact(env, field.ty, path + [Key(field.name)], x);
      case None =>
    }
    CollectClean(outcomes);
  }

  lemma ExtrasExact(names: seq<string>, extra: ExtraBehavior, path: Path, entries: seq<Entry>)
    ensures Collect(ExtraOutcomes(names, extra, path, entries)).issues == []
       <==> (extra.Forbid? ==> forall k | 0 <= k < |entries| :: entries[k].key in names)
  {
    var outcomes := ExtraOutcomes(names, extra, path, entries);
    forall k | 0 <= k < |entries|
      ensures outcomes[k].issues == [] <==> (extra.Forbid? ==> entries[k].key in names)
    {
      assert outcomes[k] == ExtraOutcome(names, extra, path, entries[k]);
    }
    CollectClean(outcomes);
  }

  /** The engine reports no issue exactly for the accepted values. */
  lemma {:induction false} AcceptanceIsExact(env: Env, ty: TypeExpr, path: Path, v: Value)
    ensures Validate(env, ty, path, v).issues == [] <==> Accepts(env, ty, path == [], v)
    decreases ty, 2
  {
    match ty
    case Primitive(primitive) => PrimitiveExact(env, primitive, path, v);
    case Enum(_) =>
    case Optional(of) =>
      if !v.Null? {
        AcceptanceIsExact(env, of, path, v);
      } else {
        assert Accepts(env, ty, path == [], v);
      }
    case List(of, c) =>
      if v.List? {
        ItemsExact(env, of, path, v.items);
        SizesExact(path, |Collect(ItemOutcomes(env, of, path, v.items)).values|, c.minSize, c.maxSize);
      }
    case Dict(of, c) =>
      if v.Dict? {
        EntriesExact(env, of, path, v.entries);
        SizesExact(path, |Collect(EntryOutcomes(env, of, path, v.entries)).values|, c.minSize, c.maxSize);
      }
    case Struct(fields, extra) =>
      if v.Dict? {
        FieldsExact(env, ty, path, v.entries);
        ExtrasExact(FieldNames(fields), EffectiveExtra(env, extra, path), path, v.entries);
      }
  }

  /** A run yields an output exactly when it reports nothing, and it reports
      nothing exactly for the accepted values. */
  lemma RunAcceptance(env: Env, ty: TypeExpr, v: Value)
    ensures Run(env, ty, v).value.Some? <==> Run(env, ty, v).issues == []
    ensures Run(env, ty, v).issues == [] <==> Accepts(env, ty, true, v)
  {
    NoSilentFailure(env, ty, [], v);
    AcceptanceIsExact(env, ty, [], v);
  }
}
