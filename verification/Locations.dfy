/** Issue locations are real: every reported path leads, in the input, to a
    value that is at fault in the way the issue's code and meta say. */
module Locations {
  import opened Wrappers
  import opened Values
  import opened Schema
  import opened Paths
  import opened Validation
  import opened Outcomes

  /** The input value a path leads to. */
  function Resolve(v: Value, path: Path): Option<Value>
    decreases |path|
  {
    if path == [] then Some(v)
    else
      match path[0]
      case Key(name) =>
        if v.Dict? && DictFind(v.entries, name).Some?
        then Resolve(DictFind(v.entries, name).value, path[1..])
        else None
      case Index(index) =>
        if v.List? && index < |v.items| then Resolve(v.items[index], path[1..]) else None
  }

  /** Values of the kind a `type_mismatch` says it expected. */
  predicate OfKind(env: Env, kind: string, w: Value) {
    var text := w.String? && !env.strict;
    if kind == "bool" then w.Bool? || text
    else if kind == "int" then w.Int? || text
    else if kind == "float" then w.Float? || w.Int? || text
    else if kind == "str" then w.String?
    else if kind == "sym" then w.Symbol? || text
    else if kind == "enum" then w.Symbol? || text
    else if kind == "list" then w.List?
    else w.Dict?
  }

  function AsUsize(n: int): int {
    if n < 0 then n + 0x1_0000_0000_0000_0000 else n
  }

  predicate BelowMin(env: Env, meta: Meta, w: Value) {
    var i, f := CoerceInt(env, [], w).value, CoerceFloat(env, [], w).value;
    if "min" !in meta then f.Some? && Less(f.value, PosInf)
    else if meta["min"].Number? then i.Some? && i.value < meta["min"].n
    else meta["min"].Real? && f.Some? && Less(f.value, Finite(meta["min"].r))
  }

  predicate AboveMax(env: Env, meta: Meta, w: Value) {
    var i, f := CoerceInt(env, [], w).value, CoerceFloat(env, [], w).value;
    if "max" !in meta then f.Some? && Less(NegInf, f.value)
    else if meta["max"].Number? then i.Some? && i.value > meta["max"].n
    else meta["max"].Real? && f.Some? && Less(Finite(meta["max"].r), f.value)
  }

  /** A list or dict may be reported short because elements were dropped. */
  predicate TooShort(meta: Meta, w: Value) {
    && "min" in meta && meta["min"].Number?
    && match w
       case String(s) => |s| < AsUsize(meta["min"].n)
       case List(_) => 0 < AsUsize(meta["min"].n)
       case Dict(_) => 0 < AsUsize(meta["min"].n)
       case _ => false
  }

  predicate TooLong(meta: Meta, w: Value) {
    && "max" in meta && meta["max"].Number?
    && match w
       case String(s) => |s| > AsUsize(meta["max"].n)
       case List(items) => |items| > AsUsize(meta["max"].n)
       case Dict(entries) => |entries| > AsUsize(meta["max"].n)
       case _ => false
  }

  predicate NotIn(env: Env, meta: Meta, w: Value) {
    && "list" in meta && meta["list"].Texts?
    && ((w.Symbol? && w.name !in meta["list"].list)
        || (w.String? && !env.strict && w.s !in meta["list"].list))
  }

  predicate Unreadable(env: Env, meta: Meta, w: Value) {
    && w.String? && !env.strict && meta == map["from" := Text("str")]
    && (ReadBool(w.s).None?
        || env.runtime.parseI64(env.runtime.trim(w.s)).None?
        || env.runtime.parseF64(env.runtime.trim(w.s)).None?)
  }

  predicate BadFormat(meta: Meta, w: Value) {
    && w.String? && "kind" in meta && meta["kind"].Text?
    && var kind := meta["kind"].s;
       || (kind == "email" && !HasFormat(Email, w.s))
       || (kind == "uuid" && !HasFormat(Uuid, w.s))
       || (kind == "url" && !HasFormat(Url, w.s))
  }

  /** What `w` did wrong, by the code and meta of the issue about it. */
  predicate Offends(env: Env, code: string, meta: Meta, w: Value) {
    if code == "type_mismatch" then
      "expected" in meta && meta["expected"].Text? && !OfKind(env, meta["expected"].s, w)
    else if code == "coerce_failed" then Unreadable(env, meta, w)
    else if code == "value_not_in" then NotIn(env, meta, w)
    else if code == "too_small" then BelowMin(env, meta, w)
    else if code == "too_large" then AboveMax(env, meta, w)
    else if code == "too_short" then TooShort(meta, w)
    else if code == "too_long" then TooLong(meta, w)
    else code == "format_invalid" && BadFormat(meta, w)
  }

  /** `at`, a path from `v`, is where the issue's fault lies. A missing field
      is located at a dict without that key, an extra one at its own key. */
  predicate Justified(env: Env, v: Value, at: Path, code: string, meta: Meta) {
    if code == "required_missing" then
      && at != [] && at[|at| - 1].Key? && meta == map[]
      && match Resolve(v, at[..|at| - 1])
         case Some(w) => w.Dict? && at[|at| - 1].name !in Keys(w.entries)
         case None => false
    else if code == "extra_key" then
      && at != [] && at[|at| - 1].Key? && meta == map["name" := Text(at[|at| - 1].name)]
      && Resolve(v, at).Some?
    else
      match Resolve(v, at)
      case Some(w) => Offends(env, code, meta, w)
      case None => false
  }

  /** The issue's path continues `path`, and the rest of it is justified. */
  predicate Located(env: Env, path: Path, v: Value, issue: Issue) {
    && path <= issue.path
    && Justified(env, v, issue.path[|path|..], issue.code, issue.meta)
  }

  /** A fault one step down is a fault seen from above. */
  lemma JustifiedAbove(env: Env, v: Value, step: Segment, w: Value, at: Path, code: string, meta: Meta)
    requires Resolve(v, [step]) == Some(w) && Justified(env, w, at, code, meta)
    ensures Justified(env, v, [step] + at, code, meta)
  {
    ResolveStep(v, step, w, at);
    if at != [] {
      ResolveStep(v, step, w, at[..|at| - 1]);
      assert ([step] + at)[..|at|] == [step] + at[..|at| - 1];
      assert ([step] + at)[|at|] == at[|at| - 1];
    }
  }

  lemma ResolveStep(v: Value, step: Segment, w: Value, at: Path)
    requires Resolve(v, [step]) == Some(w)
    ensures Resolve(v, [step] + at) == Resolve(w, at)
  {
    assert ([step] + at)[1..] == at && [step][1..] == [];
  }

  lemma LocatedAbove(env: Env, path: Path, v: Value, step: Segment, w: Value, issue: Issue)
    requires Resolve(v, [step]) == Some(w) && Located(env, path + [step], w, issue)
    ensures Located(env, path, v, issue)
  {
    var at := issue.path[|path| + 1..];
    assert issue.path[|path + [step]|..] == at;
    JustifiedAbove(env, v, step, w, at, issue.code, issue.meta);
    assert issue.path[|path|] == (path + [step])[|path|];
    assert issue.path[|path|..] == [step] + at;
    assert path <= path + [step];
  }

  lemma LocatedHere(env: Env, path: Path, v: Value, issue: Issue)
    requires issue.path == path && Offends(env, issue.code, issue.meta, v)
    ensures Located(env, path, v, issue)
  {
    assert issue.path[|path|..] == [];
  }

  lemma IntsOffend(env: Env, c: IntConstraints, path: Path, v: Value, i: I64, issue: Issue)
    requires CoerceInt(env, [], v).value == Some(i) && issue in IntIssues(path, i, c)
    ensures issue.path == path && Offends(env, issue.code, issue.meta, v)
  {
  }

  lemma FloatsOffend(env: Env, c: FloatConstraints, path: Path, v: Value, f: F64, issue: Issue)
    requires CoerceFloat(env, [], v).value == Some(f) && issue in FloatIssues(path, f, c)
    ensures issue.path == path && Offends(env, issue.code, issue.meta, v)
  {
  }

  lemma IntOffends(env: Env, c: IntConstraints, path: Path, v: Value, issue: Issue)
    requires issue in ValidatePrimitive(env, PrimitiveType.Int(c), path, v).issues
    ensures issue.path == path && Offends(env, issue.code, issue.meta, v)
  {
    var r := CoerceInt(env, path, v);
    if r.value.Some? {
      IntsOffend(env, c, path, v, r.value.value, issue);
    }
  }

  lemma FloatOffends(env: Env, c: FloatConstraints, path: Path, v: Value, issue: Issue)
    requires issue in ValidatePrimitive(env, PrimitiveType.Float(c), path, v).issues
    ensures issue.path == path && Offends(env, issue.code, issue.meta, v)
  {
    var r := CoerceFloat(env, path, v);
    if r.value.Some? {
      FloatsOffend(env, c, path, v, r.value.value, issue);
    }
  }

  lemma SizesOffend(path: Path, n: nat, minSize: Option<Usize>, maxSize: Option<Usize>, v: Value, issue: Issue)
    requires issue in SizeIssues(path, n, minSize, maxSize)
    requires match v
             case String(s) => n == |s|
             case List(items) => n <= |items|
             case Dict(entries) => n <= |entries|
             case _ => false
    ensures issue.path == path
    ensures issue.code == "too_short" || issue.code == "too_long"
    ensures issue.code == "too_short" ==> TooShort(issue.meta, v)
    ensures issue.code == "too_long" ==> TooLong(issue.meta, v)
  {
  }

  lemma StringsOffend(env: Env, c: StringConstraints, path: Path, v: Value, issue: Issue)
    requires issue in ValidatePrimitive(env, PrimitiveType.String(c), path, v).issues
    ensures issue.path == path && Offends(env, issue.code, issue.meta, v)
  {
    if v.String? && issue in SizeIssues(path, |v.s|, c.minSize, c.maxSize) {
      SizesOffend(path, |v.s|, c.minSize, c.maxSize, v, issue);
    }
  }

  lemma PrimitiveLocated(env: Env, primitive: PrimitiveType, path: Path, v: Value, issue: Issue)
    requires issue in ValidatePrimitive(env, primitive, path, v).issues
    ensures Located(env, path, v, issue)
  {
    match primitive {
      case Int(c) => IntOffends(env, c, path, v, issue);
      case Float(c) => FloatOffends(env, c, path, v, issue);
      case String(c) => StringsOffend(env, c, path, v, issue);
      case _ =>
    }
    LocatedHere(env, path, v, issue);
  }

  lemma EnumLocated(env: Env, variants: seq<string>, path: Path, v: Value, issue: Issue)
    requires issue in ValidateEnum(env, variants, path, v).issues
    ensures Located(env, path, v, issue)
  {
    LocatedHere(env, path, v, issue);
  }

  lemma MismatchLocated(env: Env, kind: string, path: Path, v: Value, issue: Issue)
    requires issue in Mismatch<Value>(path, kind).issues && !OfKind(env, kind, v)
    ensures Located(env, path, v, issue)
  {
    LocatedHere(env, path, v, issue);
  }

  lemma {:induction false} ListLocated(env: Env, ty: TypeExpr, path: Path, v: Value, issue: Issue)
    requires ty.List? && v.List? && KeysDistinct(v)
    requires issue in Validate(env, ty, path, v).issues
    ensures Located(env, path, v, issue)
    decreases ty, 1
  {
    var outcomes := ItemOutcomes(env, ty.of, path, v.items);
    CollectCount(outcomes);
    if issue in Collect(outcomes).issues {
      var i := CollectOrigin(outcomes, issue);
      assert outcomes[i] == ItemOutcome(env, ty.of, path, i, v.items[i]);
      IssuesAreReal(env, ty.of, path + [Index(i)], v.items[i], issue);
      assert [Index(i)][1..] == [];
      LocatedAbove(env, path, v, Index(i), v.items[i], issue);
    } else {
      SizesOffend(path, |Collect(outcomes).values|, ty.constraints.minSize, ty.constraints.maxSize, v, issue);
      LocatedHere(env, path, v, issue);
    }
  }

  lemma {:induction false} DictLocated(env: Env, ty: TypeExpr, path: Path, v: Value, issue: Issue)
    requires ty.Dict? && v.Dict? && KeysDistinct(v)
    requires issue in Validate(env, ty, path, v).issues
    ensures Located(env, path, v, issue)
    decreases ty, 1
  {
    var outcomes := EntryOutcomes(env, ty.value, path, v.entries);
    CollectCount(outcomes);
    if issue in Collect(outcomes).issues {
      var i := CollectOrigin(outcomes, issue);
      var e := v.entries[i];
      assert outcomes[i] == EntryOutcome(env, ty.value, path, e);
      IssuesAreReal(env, ty.value, path + [Key(e.key)], e.value, issue);
      DictFindAt(v.entries, i);
      assert [Key(e.key)][1..] == [];
      LocatedAbove(env, path, v, Key(e.key), e.value, issue);
    } else {
      SizesOffend(path, |Collect(outcomes).values|, ty.constraints.minSize, ty.constraints.maxSize, v, issue);
      LocatedHere(env, path, v, issue);
    }
  }

  lemma {:induction false} FieldLocated(env: Env, field: FieldExpr, path: Path, v: Value, issue: Issue)
    requires v.Dict? && KeysDistinct(v)
    requires issue in FieldOutcome(env, field, path, v.entries).issues
    ensures Located(env, path, v, issue)
    decreases field
  {
    var name := field.name;
    DictFindAbsent(v.entries, name);
    match DictFind(v.entries, name)
    case Some(x) =>
      var k := DictFindIndex(v.entries, name);
      IssuesAreReal(env, field.ty, path + [Key(name)], x, issue);
      assert [Key(name)][1..] == [];
      LocatedAbove(env, path, v, Key(name), x, issue);
    case None =>
      assert issue.path[|path|..] == [Key(name)];
      assert [Key(name)][..0] == [];
  }

  lemma ExtraLocated(env: Env, names: seq<string>, extra: ExtraBehavior, path: Path, v: Value, issue: Issue)
    requires v.Dict? && issue in Collect(ExtraOutcomes(names, extra, path, v.entries)).issues
    ensures Located(env, path, v, issue)
  {
    var outcomes := ExtraOutcomes(names, extra, path, v.entries);
    var i := CollectOrigin(outcomes, issue);
    var key := v.entries[i].key;
    assert outcomes[i] == ExtraOutcome(names, extra, path, v.entries[i]);
    assert issue.path[|path|..] == [Key(key)] && [Key(key)][1..] == [];
    DictFindAbsent(v.entries, key);
    assert Keys(v.entries)[i] == key;
  }

  lemma {:induction false} StructLocated(env: Env, ty: TypeExpr, path: Path, v: Value, issue: Issue)
    requires ty.Struct? && v.Dict? && KeysDistinct(v)
    requires issue in Validate(env, ty, path, v).issues
    ensures Located(env, path, v, issue)
    decreases ty, 1
  {
    var outcomes := FieldOutcomes(env, ty, path, v.entries);
    if issue in Collect(outcomes).issues {
      var i := CollectOrigin(outcomes, issue);
      assert outcomes[i] == FieldOutcome(env, ty.fields[i], path, v.entries);
      FieldLocated(env, ty.fields[i], path, v, issue);
    } else {
      ExtraLocated(env, FieldNames(ty.fields), EffectiveExtra(env, ty.extra, path), path, v, issue);
    }
  }

  /** Every issue of a validation is located in its input. */
  lemma {:induction false} IssuesAreReal(env: Env, ty: TypeExpr, path: Path, v: Value, issue: Issue)
    requires KeysDistinct(v) && issue in Validate(env, ty, path, v).issues
    ensures Located(env, path, v, issue)
    decreases ty, 2
  {
    match ty
    case Primitive(primitive) => PrimitiveLocated(env, primitive, path, v, issue);
    case Enum(variants) => EnumLocated(env, variants, path, v, issue);
    case Optional(of) => IssuesAreReal(env, of, path, v, issue);
    case List(_, _) =>
      if v.List? {
        ListLocated(env, ty, path, v, issue);
      } else {
        MismatchLocated(env, "list", path, v, issue);
      }
    case Dict(_, _) =>
      if v.Dict? {
        DictLocated(env, ty, path, v, issue);
      } else {
        MismatchLocated(env, "dict", path, v, issue);
      }
    case Struct(_, _) =>
      if v.Dict? {
        StructLocated(env, ty, path, v, issue);
      } else {
        MismatchLocated(env, "struct", path, v, issue);
      }
  }
}
