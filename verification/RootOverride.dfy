/** The extras option overrides the root struct's own policy, and the engine
    finds the root by looking at the path stack. Both facts are explained
    without the stack: away from the root the stack is only a prefix of the
    reported paths, and at the root the option is a rewrite of the schema. */
module RootOverride {
  import opened Wrappers
  import opened Values
  import opened Schema
  import opened Paths
  import opened Validation

  /** The same issues, reported from below `prefix`. */
  function Under(prefix: Path, issues: seq<Issue>): seq<Issue> {
    seq(|issues|, i requires 0 <= i < |issues| => issues[i].(path := prefix + issues[i].path))
  }

  function Moved<T>(prefix: Path, r: Outcome<T>): Outcome<T> {
    Outcome(r.value, Under(prefix, r.issues))
  }

  /** The schema whose top struct, through any chain of optionals, has the
      given policy. */
  function Pinned(ty: TypeExpr, extra: ExtraBehavior): TypeExpr {
    match ty
    case Optional(of) => TypeExpr.Optional(Pinned(of, extra))
    case Struct(fields, _) => TypeExpr.Struct(fields, extra)
    case _ => ty
  }

  lemma UnderAppend(prefix: Path, a: seq<Issue>, b: seq<Issue>)
    ensures Under(prefix, a + b) == Under(prefix, a) + Under(prefix, b)
  {
  }

  lemma {:induction false} CollectFirstMoved<T>(prefix: Path, moved: seq<Outcome<T>>, rest: seq<Outcome<T>>, n: nat)
    requires |moved| == |rest| && n <= |moved|
    requires forall i | 0 <= i < |moved| :: moved[i] == Moved(prefix, rest[i])
    ensures CollectFirst(moved, n).values == CollectFirst(rest, n).values
    ensures CollectFirst(moved, n).issues == Under(prefix, CollectFirst(rest, n).issues)
  {
    if n > 0 {
      CollectFirstMoved(prefix, moved, rest, n - 1);
      UnderAppend(prefix, CollectFirst(rest, n - 1).issues, rest[n - 1].issues);
    }
  }

  lemma SizesMoved(prefix: Path, path: Path, n: nat, minSize: Option<Usize>, maxSize: Option<Usize>)
    ensures SizeIssues(prefix + path, n, minSize, maxSize) == Under(prefix, SizeIssues(path, n, minSize, maxSize))
  {
  }

  lemma StringsMoved(prefix: Path, path: Path, s: string, c: StringConstraints)
    ensures StringIssues(prefix + path, s, c) == Under(prefix, StringIssues(path, s, c))
  {
    SizesMoved(prefix, path, |s|, c.minSize, c.maxSize);
  }

  lemma IntsMoved(prefix: Path, path: Path, i: I64, c: IntConstraints)
    ensures IntIssues(prefix + path, i, c) == Under(prefix, IntIssues(path, i, c))
  {
  }

  lemma FloatsMoved(prefix: Path, path: Path, f: F64, c: FloatConstraints)
    ensures FloatIssues(prefix + path, f, c) == Under(prefix, FloatIssues(path, f, c))
  {
  }

  lemma IntMoved(env: Env, c: IntConstraints, prefix: Path, path: Path, v: Value)
    ensures ValidatePrimitive(env, PrimitiveType.Int(c), prefix + path, v)
         == Moved(prefix, ValidatePrimitive(env, PrimitiveType.Int(c), path, v))
  {
    var r := CoerceInt(env, path, v);
    if r.value.Some? {
      IntsMoved(prefix, path, r.value.value, c);
    }
  }

  lemma FloatMoved(env: Env, c: FloatConstraints, prefix: Path, path: Path, v: Value)
    ensures ValidatePrimitive(env, PrimitiveType.Float(c), prefix + path, v)
         == Moved(prefix, ValidatePrimitive(env, PrimitiveType.Float(c), path, v))
  {
    var r := CoerceFloat(env, path, v);
    if r.value.Some? {
      FloatsMoved(prefix, path, r.value.value, c);
    }
  }

  lemma PrimitiveMoved(env: Env, primitive: PrimitiveType, prefix: Path, path: Path, v: Value)
    ensures ValidatePrimitive(env, primitive, prefix + path, v)
         == Moved(prefix, ValidatePrimitive(env, primitive, path, v))
  {
    match primitive
    case Int(c) => IntMoved(env, c, prefix, path, v);
    case Float(c) => FloatMoved(env, c, prefix, path, v);
    case String(c) =>
      if v.String? {
        StringsMoved(prefix, path, v.s, c);
      }
    case _ =>
  }

  lemma EnumMoved(env: Env, variants: seq<string>, prefix: Path, path: Path, v: Value)
    ensures ValidateEnum(env, variants, prefix + path, v) == Moved(prefix, ValidateEnum(env, variants, path, v))
  {
  }

  lemma {:induction false} ItemsMoved(env: Env, of: TypeExpr, prefix: Path, path: Path, items: seq<Value>)
    ensures Collect(ItemOutcomes(env, of, prefix + path, items)).values
         == Collect(ItemOutcomes(env, of, path, items)).values
    ensures Collect(ItemOutcomes(env, of, prefix + path, items)).issues
         == Under(prefix, Collect(ItemOutcomes(env, of, path, items)).issues)
    decreases of, 3
  {
    var moved, rest := ItemOutcomes(env, of, prefix + path, items), ItemOutcomes(env, of, path, items);
    forall i | 0 <= i < |items| ensures moved[i] == Moved(prefix, rest[i]) {
      assert moved[i] == ItemOutcome(env, of, prefix + path, i, items[i]);
      assert rest[i] == ItemOutcome(env, of, path, i, items[i]);
      assert (prefix + path) + [Index(i)] == prefix + (path + [Index(i)]);
      PrefixIrrelevant(env, of, prefix, path + [Index(i)], items[i]);
    }
    CollectFirstMoved(prefix, moved, rest, |items|);
  }

  lemma {:induction false} EntriesMoved(env: Env, of: TypeExpr, prefix: Path, path: Path, entries: seq<Entry>)
    ensures Collect(EntryOutcomes(env, of, prefix + path, entries)).values
         == Collect(EntryOutcomes(env, of, path, entries)).values
    ensures Collect(EntryOutcomes(env, of, prefix + path, entries)).issues
         == Under(prefix, Collect(EntryOutcomes(env, of, path, entries)).issues)
    decreases of, 3
  {
    var moved, rest := EntryOutcomes(env, of, prefix + path, entries), EntryOutcomes(env, of, path, entries);
    forall i | 0 <= i < |entries| ensures moved[i] == Moved(prefix, rest[i]) {
      assert moved[i] == EntryOutcome(env, of, prefix + path, entries[i]);
      assert rest[i] == EntryOutcome(env, of, path, entries[i]);
      assert (prefix + path) + [Key(entries[i].key)] == prefix + (path + [Key(entries[i].key)]);
      PrefixIrrelevant(env, of, prefix, path + [Key(entries[i].key)], entries[i].value);
    }
    CollectFirstMoved(prefix, moved, rest, |entries|);
  }

  lemma {:induction false} FieldsMoved(env: Env, ty: TypeExpr, pinned: TypeExpr, prefix: Path, path: Path,
                                       entries: seq<Entry>)
    requires ty.Struct? && pinned.Struct? && pinned.fields == ty.fields
    ensures Collect(FieldOutcomes(env, pinned, prefix + path, entries)).values
         == Collect(FieldOutcomes(env, ty, path, entries)).values
    ensures Collect(FieldOutcomes(env, pinned, prefix + path, entries)).issues
         == Under(prefix, Collect(FieldOutcomes(env, ty, path, entries)).issues)
    decreases ty, 0
  {
    var moved, rest := FieldOutcomes(env, pinned, prefix + path, entries), FieldOutcomes(env, ty, path, entries);
    forall i | 0 <= i < |ty.fields| ensures moved[i] == Moved(prefix, rest[i]) {
      var field := ty.fields[i];
      assert moved[i] == FieldOutcome(env, field, prefix + path, entries);
      assert rest[i] == FieldOutcome(env, field, path, entries);
      assert (prefix + path) + [Key(field.name)] == prefix + (path + [Key(field.name)]);
      match DictFind(entries, field.name)
      case Some(x) => PrefixIrrelevant(env, field.ty, prefix, path + [Key(field.name)], x);
      case None =>
    }
    CollectFirstMoved(prefix, moved, rest, |ty.fields|);
  }

  lemma ExtrasMoved(names: seq<string>, extra: ExtraBehavior, prefix: Path, path: Path, entries: seq<Entry>)
    ensures Collect(ExtraOutcomes(names, extra, prefix + path, entries)).values
         == Collect(ExtraOutcomes(names, extra, path, entries)).values
    ensures Collect(ExtraOutcomes(names, extra, prefix + path, entries)).issues
         == Under(prefix, Collect(ExtraOutcomes(names, extra, path, entries)).issues)
  {
    var moved := ExtraOutcomes(names, extra, prefix + path, entries);
    var rest := ExtraOutcomes(names, extra, path, entries);
    forall i | 0 <= i < |entries| ensures moved[i] == Moved(prefix, rest[i]) {
      assert (prefix + path) + [Key(entries[i].key)] == prefix + (path + [Key(entries[i].key)]);
    }
    CollectFirstMoved(prefix, moved, rest, |entries|);
  }

  /** Away from the root, where a validation happens only shows moved a prefix of
      the paths it reports. */
  lemma {:induction false} PrefixIrrelevant(env: Env, ty: TypeExpr, prefix: Path, path: Path, v: Value)
    requires path != []
    ensures Validate(env, ty, prefix + path, v) == Moved(prefix, Validate(env, ty, path, v))
    decreases ty, 2
  {
    match ty
    case Primitive(primitive) => PrimitiveMoved(env, primitive, prefix, path, v);
    case Enum(variants) => EnumMoved(env, variants, prefix, path, v);
    case Optional(of) =>
      if !v.Null? {
        PrefixIrrelevant(env, of, prefix, path, v);
      }
    case Struct(_, extra) => StructMoved(env, ty, ty, prefix, path, v);
    case _ => ContainerMoved(env, ty, prefix, path, v);
  }

  lemma {:induction false} ContainerMoved(env: Env, ty: TypeExpr, prefix: Path, path: Path, v: Value)
    requires ty.List? || ty.Dict?
    ensures Validate(env, ty, prefix + path, v) == Moved(prefix, Validate(env, ty, path, v))
    decreases ty, 1
  {
    var c := ty.constraints;
    if ty.List? && v.List? {
      ItemsMoved(env, ty.of, prefix, path, v.items);
      var r := Collect(ItemOutcomes(env, ty.of, path, v.items));
      SizesMoved(prefix, path, |r.values|, c.minSize, c.maxSize);
      UnderAppend(prefix, r.issues, SizeIssues(path, |r.values|, c.minSize, c.maxSize));
    } else if ty.Dict? && v.Dict? {
      EntriesMoved(env, ty.value, prefix, path, v.entries);
      var r := Collect(EntryOutcomes(env, ty.value, path, v.entries));
      SizesMoved(prefix, path, |r.values|, c.minSize, c.maxSize);
      UnderAppend(prefix, r.issues, SizeIssues(path, |r.values|, c.minSize, c.maxSize));
    }
  }

  /** Two structs with the same fields, whose policies agree where they stand. */
  lemma {:induction false} StructMoved(env: Env, ty: TypeExpr, pinned: TypeExpr, prefix: Path, path: Path, v: Value)
    requires ty.Struct? && pinned.Struct? && pinned.fields == ty.fields
    requires EffectiveExtra(env, pinned.extra, prefix + path) == EffectiveExtra(env, ty.extra, path)
    ensures Validate(env, pinned, prefix + path, v) == Moved(prefix, Validate(env, ty, path, v))
    decreases ty, 1
  {
    if v.Dict? {
      var names, extra := FieldNames(ty.fields), EffectiveExtra(env, ty.extra, path);
      FieldsMoved(env, ty, pinned, prefix, path, v.entries);
      ExtrasMoved(names, extra, prefix, path, v.entries);
      UnderAppend(prefix, Collect(FieldOutcomes(env, ty, path, v.entries)).issues,
                  Collect(ExtraOutcomes(names, extra, path, v.entries)).issues);
    }
  }

  /** Validating at the root under an extras option is validating anywhere
      else against the schema with that option written into its top struct. */
  lemma {:induction false} RootOverrideIsRewrite(env: Env, ty: TypeExpr, prefix: Path, v: Value)
    requires prefix != []
    ensures Validate(env, Pinned(ty, env.extraBehavior), prefix, v) == Moved(prefix, Validate(env, ty, [], v))
    decreases ty
  {
    assert prefix + [] == prefix;
    match ty
    case Primitive(primitive) => PrimitiveMoved(env, primitive, prefix, [], v);
    case Enum(variants) => EnumMoved(env, variants, prefix, [], v);
    case Optional(of) =>
      if !v.Null? {
        RootOverrideIsRewrite(env, of, prefix, v);
      }
    case Struct(_, _) => StructMoved(env, ty, Pinned(ty, env.extraBehavior), prefix, [], v);
    case _ => ContainerMoved(env, ty, prefix, [], v);
  }
}
