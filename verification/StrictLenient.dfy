/** Strict validation refines lenient validation. */
module StrictLenient {
  import opened Values
  import opened Schema
  import opened Paths
  import opened Validation
  import opened Outcomes
  import opened Acceptance

  lemma {:induction false} FieldsRefine(env: Env, ty: TypeExpr, path: Path, entries: seq<Entry>)
    requires ty.Struct?
    requires Collect(FieldOutcomes(env.(strict := true), ty, path, entries)).issues == []
    ensures FieldOutcomes(env.(strict := false), ty, path, entries)
         == FieldOutcomes(env.(strict := true), ty, path, entries)
    decreases ty, 1
  {
    var strict := FieldOutcomes(env.(strict := true), ty, path, entries);
    var lenient := FieldOutcomes(env.(strict := false), ty, path, entries);
    CollectClean(strict);
    forall i | 0 <= i < |ty.fields| ensures lenient[i] == strict[i] {
      var field := ty.fields[i];
      assert strict[i] == FieldOutcome(env.(strict := true), field, path, entries);
      assert lenient[i] == FieldOutcome(env.(strict := false), field, path, entries);
      match DictFind(entries, field.name)
      case Some(x) => StrictRefinesLenient(env, field.ty, path + [Key(field.name)], x);
      case None =>
    }
  }

  /** Whatever strict validation accepts, lenient validation accepts with the
      very same output. */
  lemma {:induction false} StrictRefinesLenient(env: Env, ty: TypeExpr, path: Path, v: Value)
    requires Validate(env.(strict := true), ty, path, v).issues == []
    ensures Validate(env.(strict := false), ty, path, v) == Validate(env.(strict := true), ty, path, v)
    decreases ty, 2
  {
    match ty
    case Primitive(_) =>
    case Enum(_) =>
    case Optional(of) =>
      if !v.Null? {
        StrictRefinesLenient(env, of, path, v);
      }
    case List(of, _) =>
      var strict := ItemOutcomes(env.(strict := true), of, path, v.items);
      var lenient := ItemOutcomes(env.(strict := false), of, path, v.items);
      CollectClean(strict);
      forall i | 0 <= i < |v.items| ensures lenient[i] == strict[i] {
        assert strict[i] == ItemOutcome(env.(strict := true), of, path, i, v.items[i]);
        assert lenient[i] == ItemOutcome(env.(strict := false), of, path, i, v.items[i]);
        StrictRefinesLenient(env, of, path + [Index(i)], v.items[i]);
      }
      assert lenient == strict;
    case Dict(of, _) =>
      var strict := EntryOutcomes(env.(strict := true), of, path, v.entries);
      var lenient := EntryOutcomes(env.(strict := false), of, path, v.entries);
      CollectClean(strict);
      forall i | 0 <= i < |v.entries| ensures lenient[i] == strict[i] {
        assert strict[i] == EntryOutcome(env.(strict := true), of, path, v.entries[i]);
        assert lenient[i] == EntryOutcome(env.(strict := false), of, path, v.entries[i]);
        StrictRefinesLenient(env, of, path + [Key(v.entries[i].key)], v.entries[i].value);
      }
      assert lenient == strict;
    case Struct(_, _) =>
      FieldsRefine(env, ty, path, v.entries);
  }

  predicate ReadsTextAt(field: FieldExpr, entries: seq<Entry>)
    decreases field
  {
    match DictFind(entries, field.name)
    case Some(x) => ReadsText(field.ty, x)
    case None => false
  }

  /** Somewhere in `v` there is text where the schema wants another kind. */
  predicate ReadsText(ty: TypeExpr, v: Value)
    decreases ty
  {
    match ty
    case Primitive(primitive) => !primitive.Any? && !primitive.String? && v.String?
    case Enum(_) => v.String?
    case Optional(of) => ReadsText(of, v)
    case List(of, _) => v.List? && exists i | 0 <= i < |v.items| :: ReadsText(of, v.items[i])
    case Dict(of, _) => v.Dict? && exists i | 0 <= i < |v.entries| :: ReadsText(of, v.entries[i].value)
    case Struct(fields, _) => v.Dict? && exists i | 0 <= i < |fields| :: ReadsTextAt(fields[i], v.entries)
  }

  lemma {:induction false} NullIsNoText(ty: TypeExpr)
    ensures !ReadsText(ty, Value.Null)
  {
    if ty.Optional? {
      NullIsNoText(ty.of);
    }
  }

  lemma PrimitiveStrict(env: Env, primitive: PrimitiveType, v: Value)
    requires AcceptsPrimitive(env.(strict := false), primitive, v)
    ensures AcceptsPrimitive(env.(strict := true), primitive, v)
       <==> !ReadsText(TypeExpr.Primitive(primitive), v)
  {
  }

  lemma {:induction false} StructStrict(env: Env, ty: TypeExpr, root: bool, v: Value)
    requires ty.Struct? && Accepts(env.(strict := false), ty, root, v)
    ensures Accepts(env.(strict := true), ty, root, v) <==> !ReadsText(ty, v)
    decreases ty, 0
  {
    forall i | 0 <= i < |ty.fields| && DictFind(v.entries, ty.fields[i].name).Some?
      ensures Accepts(env.(strict := true), ty.fields[i].ty, false, DictFind(v.entries, ty.fields[i].name).value)
         <==> !ReadsTextAt(ty.fields[i], v.entries)
    {
      AcceptsStrict(env, ty.fields[i].ty, false, DictFind(v.entries, ty.fields[i].name).value);
    }
  }

  lemma {:induction false} AcceptsStrict(env: Env, ty: TypeExpr, root: bool, v: Value)
    requires Accepts(env.(strict := false), ty, root, v)
    ensures Accepts(env.(strict := true), ty, root, v) <==> !ReadsText(ty, v)
    decreases ty, 1
  {
    match ty
    case Primitive(primitive) => PrimitiveStrict(env, primitive, v);
    case Enum(_) =>
    case Optional(of) =>
      if v.Null? {
        NullIsNoText(of);
      } else {
        AcceptsStrict(env, of, root, v);
      }
    case List(of, _) =>
      forall i | 0 <= i < |v.items|
        ensures Accepts(env.(strict := true), of, false, v.items[i]) <==> !ReadsText(of, v.items[i])
      {
        AcceptsStrict(env, of, false, v.items[i]);
      }
    case Dict(of, _) =>
      forall i | 0 <= i < |v.entries|
        ensures Accepts(env.(strict := true), of, false, v.entries[i].value) <==> !ReadsText(of, v.entries[i].value)
      {
        AcceptsStrict(env, of, false, v.entries[i].value);
      }
    case Struct(_, _) => StructStrict(env, ty, root, v);
  }

  /** A lenient success is a strict success, with the same output, exactly if
      nothing was read from text. */
  lemma LenientIsStrict(env: Env, ty: TypeExpr, path: Path, v: Value)
    requires Validate(env.(strict := false), ty, path, v).issues == []
    ensures Validate(env.(strict := true), ty, path, v) == Validate(env.(strict := false), ty, path, v)
       <==> !ReadsText(ty, v)
  {
    AcceptanceIsExact(env.(strict := false), ty, path, v);
    AcceptanceIsExact(env.(strict := true), ty, path, v);
    AcceptsStrict(env, ty, path == [], v);
    if Validate(env.(strict := true), ty, path, v).issues == [] {
      StrictRefinesLenient(env, ty, path, v);
    }
  }
}
