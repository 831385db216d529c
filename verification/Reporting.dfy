/** Which issues a validation records: `Broken` says, without running it, which
    codes are due at which places of an input, and exactly those are recorded. */
module Reporting {
  import opened Wrappers
  import opened Values
  import opened Schema
  import opened Paths
  import opened Validation
  import opened Acceptance
  import opened Conformance

  /** Text that lenient validation tries to read as something else. */
  predicate IsText(env: Env, v: Value) {
    v.String? && !env.strict
  }

  function AsInt(env: Env, v: Value): Option<I64> {
    if v.Int? then Some(v.i)
    else if IsText(env, v) then env.runtime.parseI64(env.runtime.trim(v.s))
    else None
  }

  function AsFloat(env: Env, v: Value): Option<F64> {
    if v.Float? then Some(v.f)
    else if v.Int? then Some(env.runtime.intToF64(v.i))
    else if IsText(env, v) then env.runtime.parseF64(env.runtime.trim(v.s))
    else None
  }

  predicate Mismatched(expected: string, code: string, meta: Meta) {
    code == "type_mismatch" && meta == map["expected" := Text(expected)]
  }

  /** What is due for a value that cannot be read as `expected` at all. */
  predicate Unread(env: Env, v: Value, expected: string, code: string, meta: Meta) {
    if IsText(env, v) then code == "coerce_failed" && meta == map["from" := Text("str")]
    else Mismatched(expected, code, meta)
  }

  predicate SizeBroken(n: nat, minSize: Option<Usize>, maxSize: Option<Usize>, code: string, meta: Meta) {
    || (code == "too_short" && minSize.Some? && n < minSize.value
        && meta == map["min" := Number(UsizeAsI64(minSize.value))])
    || (code == "too_long" && maxSize.Some? && n > maxSize.value
        && meta == map["max" := Number(UsizeAsI64(maxSize.value))])
  }

  predicate IntBroken(i: I64, c: IntConstraints, code: string, meta: Meta) {
    || (code == "too_small" && c.min.Some? && i < c.min.value && meta == map["min" := Number(c.min.value)])
    || (code == "too_large" && c.max.Some? && i > c.max.value && meta == map["max" := Number(c.max.value)])
  }

  /** NaN is beyond neither bound. */
  predicate FloatBroken(f: F64, c: FloatConstraints, code: string, meta: Meta) {
    || (code == "too_small" && c.min.Some? && Less(f, c.min.value) && meta == FloatMeta("min", c.min.value))
    || (code == "too_large" && c.max.Some? && Less(c.max.value, f) && meta == FloatMeta("max", c.max.value))
  }

  predicate StringBroken(s: string, c: StringConstraints, code: string, meta: Meta) {
    || SizeBroken(|s|, c.minSize, c.maxSize, code, meta)
    || (code == "format_invalid" && c.format.Some? && !HasFormat(c.format.value, s)
        && meta == map["kind" := Text(FormatName(c.format.value))])
  }

  predicate PrimitiveBroken(env: Env, primitive: PrimitiveType, v: Value, code: string, meta: Meta) {
    match primitive
    case Any => false
    case Bool => !v.Bool? && !(IsText(env, v) && ReadBool(v.s).Some?) && Unread(env, v, "bool", code, meta)
    case Int(c) =>
      (match AsInt(env, v)
       case None => Unread(env, v, "int", code, meta)
       case Some(i) => IntBroken(i, c, code, meta))
    case Float(c) =>
      (match AsFloat(env, v)
       case None => Unread(env, v, "float", code, meta)
       case Some(f) => FloatBroken(f, c, code, meta))
    case String(c) =>
      if v.String? then StringBroken(v.s, c, code, meta) else Mismatched("str", code, meta)
    case Symbol => !v.Symbol? && !IsText(env, v) && Mismatched("sym", code, meta)
  }

  predicate EnumBroken(env: Env, variants: seq<string>, v: Value, code: string, meta: Meta) {
    if v.Symbol? || IsText(env, v) then
      && (if v.Symbol? then v.name else v.s) !in variants
      && code == "value_not_in" && meta == map["list" := Texts(variants)]
    else Mismatched("enum", code, meta)
  }

  /** Values that validation keeps, if with issues; others it drops. */
  predicate Usable(env: Env, ty: TypeExpr, v: Value) {
    match ty
    case Primitive(Any) => true
    case Primitive(Bool) => v.Bool? || (IsText(env, v) && ReadBool(v.s).Some?)
    case Primitive(Int(_)) => AsInt(env, v).Some?
    case Primitive(Float(_)) => AsFloat(env, v).Some?
    case Primitive(String(_)) => v.String?
    case Primitive(Symbol) => v.Symbol? || IsText(env, v)
    case Enum(variants) => (v.Symbol? && v.name in variants) || (IsText(env, v) && v.s in variants)
    case Optional(of) => v.Null? || Usable(env, of, v)
    case List(_, _) => v.List?
    case Dict(_, _) => v.Dict?
    case Struct(_, _) => v.Dict?
  }

  function CountUsable(env: Env, ty: TypeExpr, items: seq<Value>): nat {
    if items == [] then 0
    else CountUsable(env, ty, items[..|items| - 1]) + if Usable(env, ty, items[|items| - 1]) then 1 else 0
  }

  function EntryValues(entries: seq<Entry>): seq<Value> {
    seq(|entries|, i requires 0 <= i < |entries| => entries[i].value)
  }

  /** A field is broken below its name; missing, at its name. */
  predicate FieldBroken(env: Env, field: FieldExpr, entries: seq<Entry>, at: Path, code: string, meta: Meta)
    decreases field
  {
    && at != [] && at[0] == Key(field.name)
    && match DictFind(entries, field.name)
       case Some(x) => Broken(env, field.ty, false, x, at[1..], code, meta)
       case None => field.presence.Required? && at[1..] == [] && code == "required_missing" && meta == map[]
  }

  predicate ExtraBroken(names: seq<string>, extra: ExtraBehavior, e: Entry, at: Path, code: string, meta: Meta) {
    extra.Forbid? && e.key !in names && at == [Key(e.key)] && code == "extra_key"
    && meta == map["name" := Text(e.key)]
  }

  /** At the place `at` below `v`, something is wrong that has this code. */
  predicate Broken(env: Env, ty: TypeExpr, root: bool, v: Value, at: Path, code: string, meta: Meta)
    decreases ty
  {
    match ty
    case Primitive(primitive) => at == [] && PrimitiveBroken(env, primitive, v, code, meta)
    case Enum(variants) => at == [] && EnumBroken(env, variants, v, code, meta)
    case Optional(of) => !v.Null? && Broken(env, of, root, v, at, code, meta)
    case List(of, c) =>
      if !v.List? then at == [] && Mismatched("list", code, meta)
      else if at == [] then SizeBroken(CountUsable(env, of, v.items), c.minSize, c.maxSize, code, meta)
      else exists i | 0 <= i < |v.items| ::
        at[0] == Index(i) && Broken(env, of, false, v.items[i], at[1..], code, meta)
    case Dict(of, c) =>
      if !v.Dict? then at == [] && Mismatched("dict", code, meta)
      else if at == [] then SizeBroken(CountUsable(env, of, EntryValues(v.entries)), c.minSize, c.maxSize, code, meta)
      else exists i | 0 <= i < |v.entries| ::
        at[0] == Key(v.entries[i].key) && Broken(env, of, false, v.entries[i].value, at[1..], code, meta)
    case Struct(fields, extra) =>
      if !v.Dict? then at == [] && Mismatched("struct", code, meta)
      else
        || (exists i | 0 <= i < |fields| :: FieldBroken(env, fields[i], v.entries, at, code, meta))
        || exists k | 0 <= k < |v.entries| ::
             ExtraBroken(FieldNames(fields), if root then env.extraBehavior else extra, v.entries[k], at, code, meta)
  }

  lemma {:induction false} ReportedFirst<T>(outcomes: seq<Outcome<T>>, n: nat, issue: Issue)
    requires n <= |outcomes|
    ensures issue in CollectFirst(outcomes, n).issues
       <==> exists i | 0 <= i < n :: issue in outcomes[i].issues
  {
    if n > 0 {
      ReportedFirst(outcomes, n - 1, issue);
    }
  }

  lemma SizesReported(path: Path, n: nat, minSize: Option<Usize>, maxSize: Option<Usize>, issue: Issue)
    ensures issue in SizeIssues(path, n, minSize, maxSize)
       <==> issue.path == path && SizeBroken(n, minSize, maxSize, issue.code, issue.meta)
  {
    var few := SizeIssues(path, n, minSize, None);
    var many := SizeIssues(path, n, None, maxSize);
    assert SizeIssues(path, n, minSize, maxSize) == few + many;
  }

  lemma IntsReported(path: Path, i: I64, c: IntConstraints, issue: Issue)
    ensures issue in IntIssues(path, i, c)
       <==> issue.path == path && IntBroken(i, c, issue.code, issue.meta)
  {
    var low, high := IntIssues(path, i, c.(max := None)), IntIssues(path, i, c.(min := None));
    assert IntIssues(path, i, c) == low + high;
  }

  lemma FloatsReported(path: Path, f: F64, c: FloatConstraints, issue: Issue)
    ensures issue in FloatIssues(path, f, c)
       <==> issue.path == path && FloatBroken(f, c, issue.code, issue.meta)
  {
    var low, high := FloatIssues(path, f, c.(max := None)), FloatIssues(path, f, c.(min := None));
    assert FloatIssues(path, f, c) == low + high;
  }

  lemma StringsReported(path: Path, s: string, c: StringConstraints, issue: Issue)
    ensures issue in StringIssues(path, s, c)
       <==> issue.path == path && StringBroken(s, c, issue.code, issue.meta)
  {
    var sizes := SizeIssues(path, |s|, c.minSize, c.maxSize);
    var format := StringIssues(path, s, StringConstraints(None, None, c.format));
    assert StringIssues(path, s, c) == sizes + format;
    SizesReported(path, |s|, c.minSize, c.maxSize, issue);
  }

  lemma MismatchReported(path: Path, expected: string, issue: Issue)
    ensures issue in Mismatch<Value>(path, expected).issues
       <==> issue.path == path && Mismatched(expected, issue.code, issue.meta)
  {
  }

  lemma CoerceReported(path: Path, v: Value, issue: Issue)
    ensures issue in CoerceFailed<Value>(path, v).issues
       <==> issue.path == path && issue.code == "coerce_failed" && issue.meta == map["from" := Text(TypeName(v))]
  {
  }

  lemma PrimitiveReported(env: Env, primitive: PrimitiveType, path: Path, v: Value, issue: Issue)
    ensures issue in ValidatePrimitive(env, primitive, path, v).issues
       <==> issue.path == path && PrimitiveBroken(env, primitive, v, issue.code, issue.meta)
  {
    MismatchReported(path, "bool", issue);
    MismatchReported(path, "sym", issue);
    CoerceReported(path, v, issue);
    match primitive
    case Int(c) => IntReported(env, c, path, v, issue);
    case Float(c) => FloatReported(env, c, path, v, issue);
    case String(c) =>
      MismatchReported(path, "str", issue);
      if v.String? {
        StringsReported(path, v.s, c, issue);
        assert ValidatePrimitive(env, primitive, path, v).issues == StringIssues(path, v.s, c);
      }
    case _ =>
  }

  lemma IntReported(env: Env, c: IntConstraints, path: Path, v: Value, issue: Issue)
    ensures issue in ValidatePrimitive(env, PrimitiveType.Int(c), path, v).issues
       <==> issue.path == path && PrimitiveBroken(env, PrimitiveType.Int(c), v, issue.code, issue.meta)
  {
    MismatchReported(path, "int", issue);
    CoerceReported(path, v, issue);
    if AsInt(env, v).Some? {
      IntsReported(path, AsInt(env, v).value, c, issue);
      assert ValidatePrimitive(env, PrimitiveType.Int(c), path, v).issues == IntIssues(path, AsInt(env, v).value, c);
    }
  }

  lemma FloatReported(env: Env, c: FloatConstraints, path: Path, v: Value, issue: Issue)
    ensures issue in ValidatePrimitive(env, PrimitiveType.Float(c), path, v).issues
       <==> issue.path == path && PrimitiveBroken(env, PrimitiveType.Float(c), v, issue.code, issue.meta)
  {
    MismatchReported(path, "float", issue);
    CoerceReported(path, v, issue);
    if AsFloat(env, v).Some? {
      FloatsReported(path, AsFloat(env, v).value, c, issue);
      assert ValidatePrimitive(env, PrimitiveType.Float(c), path, v).issues
          == FloatIssues(path, AsFloat(env, v).value, c);
    }
  }

  lemma EnumReported(env: Env, variants: seq<string>, path: Path, v: Value, issue: Issue)
    ensures issue in ValidateEnum(env, variants, path, v).issues
       <==> issue.path == path && EnumBroken(env, variants, v, issue.code, issue.meta)
  {
    MismatchReported(path, "enum", issue);
  }

  /** A value is kept exactly if it is usable. */
  lemma {:induction false} KeptIfUsable(env: Env, ty: TypeExpr, path: Path, v: Value)
    ensures Validate(env, ty, path, v).value.Some? <==> Usable(env, ty, v)
  {
    match ty
    case Optional(of) =>
      if !v.Null? {
        KeptIfUsable(env, of, path, v);
      }
    case _ =>
  }

  lemma {:induction false} KeptCount<T>(env: Env, ty: TypeExpr, items: seq<Value>, outcomes: seq<Outcome<T>>, n: nat)
    requires n <= |items| == |outcomes|
    requires forall i | 0 <= i < |items| :: outcomes[i].value.Some? <==> Usable(env, ty, items[i])
    ensures |CollectFirst(outcomes, n).values| == CountUsable(env, ty, items[..n])
  {
    if n > 0 {
      KeptCount(env, ty, items, outcomes, n - 1);
      assert items[..n][..n - 1] == items[..n - 1];
    }
  }

  lemma StepPrefix(path: Path, step: Segment, p: Path)
    ensures path + [step] <= p <==> path <= p && |path| < |p| && p[|path|] == step
  {
    if path + [step] <= p {
      assert p[|path|] == (path + [step])[|path|];
      assert forall i | 0 <= i < |path| :: path[i] == (path + [step])[i];
    }
    if path <= p && |path| < |p| && p[|path|] == step {
      assert p[..|path| + 1] == path + [step];
    }
  }

  /** One step down: the path grows by the step, and nothing else is reported. */
  lemma {:induction false} BelowReported(env: Env, of: TypeExpr, path: Path, step: Segment, v: Value, issue: Issue)
    ensures issue in Validate(env, of, path + [step], v).issues
       <==> && path <= issue.path && |path| < |issue.path| && issue.path[|path|] == step
            && Broken(env, of, false, v, issue.path[|path|..][1..], issue.code, issue.meta)
    decreases of, 5
  {
    IssuesAreFaults(env, of, path + [step], v, issue);
    StepPrefix(path, step, issue.path);
    if path + [step] <= issue.path {
      assert issue.path[|path|..][1..] == issue.path[|path + [step]|..];
    }
  }

  lemma {:induction false} ItemsReported(env: Env, of: TypeExpr, path: Path, items: seq<Value>, issue: Issue)
    ensures issue in Collect(ItemOutcomes(env, of, path, items)).issues
       <==> && path < issue.path
            && exists i | 0 <= i < |items| ::
                 && issue.path[|path|..][0] == Index(i)
                 && Broken(env, of, false, items[i], issue.path[|path|..][1..], issue.code, issue.meta)
    ensures |Collect(ItemOutcomes(env, of, path, items)).values| == CountUsable(env, of, items)
    decreases of, 6
  {
    var outcomes := ItemOutcomes(env, of, path, items);
    ReportedFirst(outcomes, |outcomes|, issue);
    forall i | 0 <= i < |items|
      ensures issue in outcomes[i].issues
         <==> && path < issue.path && issue.path[|path|..][0] == Index(i)
              && Broken(env, of, false, items[i], issue.path[|path|..][1..], issue.code, issue.meta)
      ensures outcomes[i].value.Some? <==> Usable(env, of, items[i])
    {
      assert outcomes[i] == ItemOutcome(env, of, path, i, items[i]);
      BelowReported(env, of, path, Index(i), items[i], issue);
      KeptIfUsable(env, of, path + [Index(i)], items[i]);
    }
    KeptCount(env, of, items, outcomes, |items|);
    assert items[..|items|] == items;
  }

  lemma {:induction false} EntriesReported(env: Env, of: TypeExpr, path: Path, entries: seq<Entry>, issue: Issue)
    ensures issue in Collect(EntryOutcomes(env, of, path, entries)).issues
       <==> && path < issue.path
            && exists i | 0 <= i < |entries| ::
                 && issue.path[|path|..][0] == Key(entries[i].key)
                 && Broken(env, of, false, entries[i].value, issue.path[|path|..][1..], issue.code, issue.meta)
    ensures |Collect(EntryOutcomes(env, of, path, entries)).values| == CountUsable(env, of, EntryValues(entries))
    decreases of, 6
  {
    var outcomes, values := EntryOutcomes(env, of, path, entries), EntryValues(entries);
    ReportedFirst(outcomes, |outcomes|, issue);
    forall i | 0 <= i < |entries|
      ensures issue in outcomes[i].issues
         <==> && path < issue.path && issue.path[|path|..][0] == Key(entries[i].key)
              && Broken(env, of, false, entries[i].value, issue.path[|path|..][1..], issue.code, issue.meta)
      ensures outcomes[i].value.Some? <==> Usable(env, of, values[i])
    {
      assert outcomes[i] == EntryOutcome(env, of, path, entries[i]);
      BelowReported(env, of, path, Key(entries[i].key), entries[i].value, issue);
      KeptIfUsable(env, of, path + [Key(entries[i].key)], entries[i].value);
    }
    KeptCount(env, of, values, outcomes, |values|);
    assert values[..|values|] == values;
  }

  lemma {:induction false} FieldReported(env: Env, field: FieldExpr, path: Path, entries: seq<Entry>, issue: Issue)
    ensures issue in FieldOutcome(env, field, path, entries).issues
       <==> path <= issue.path && FieldBroken(env, field, entries, issue.path[|path|..], issue.code, issue.meta)
    decreases field
  {
    var here := path + [Key(field.name)];
    match DictFind(entries, field.name)
    case Some(x) => BelowReported(env, field.ty, path, Key(field.name), x, issue);
    case None =>
      SplitPath(path, Key(field.name), issue.path);
  }

  lemma SplitPath(path: Path, step: Segment, p: Path)
    ensures p == path + [step] <==> path <= p && p[|path|..] == [step]
  {
    if path <= p && p[|path|..] == [step] {
      assert p == path + p[|path|..];
    }
  }

  lemma ExtrasReported(names: seq<string>, extra: ExtraBehavior, path: Path, entries: seq<Entry>, issue: Issue)
    ensures issue in Collect(ExtraOutcomes(names, extra, path, entries)).issues
       <==> && path <= issue.path
            && exists k | 0 <= k < |entries| ::
                 ExtraBroken(names, extra, entries[k], issue.path[|path|..], issue.code, issue.meta)
  {
    var outcomes := ExtraOutcomes(names, extra, path, entries);
    ReportedFirst(outcomes, |outcomes|, issue);
    forall k | 0 <= k < |entries|
      ensures issue in outcomes[k].issues
         <==> path <= issue.path
              && ExtraBroken(names, extra, entries[k], issue.path[|path|..], issue.code, issue.meta)
    {
      var e := entries[k];
      assert outcomes[k] == ExtraOutcome(names, extra, path, e);
      SplitPath(path, Key(e.key), issue.path);
    }
  }

  lemma {:induction false} FieldsReported(env: Env, ty: TypeExpr, path: Path, entries: seq<Entry>, issue: Issue)
    requires ty.Struct?
    ensures issue in Collect(FieldOutcomes(env, ty, path, entries)).issues
       <==> path <= issue.path && exists i | 0 <= i < |ty.fields| ::
              FieldBroken(env, ty.fields[i], entries, issue.path[|path|..], issue.code, issue.meta)
    decreases ty, 1
  {
    var outcomes := FieldOutcomes(env, ty, path, entries);
    ReportedFirst(outcomes, |outcomes|, issue);
    forall i | 0 <= i < |ty.fields|
      ensures issue in outcomes[i].issues
         <==> path <= issue.path
              && FieldBroken(env, ty.fields[i], entries, issue.path[|path|..], issue.code, issue.meta)
    {
      assert outcomes[i] == FieldOutcome(env, ty.fields[i], path, entries);
      FieldReported(env, ty.fields[i], path, entries, issue);
    }
  }

  lemma {:induction false} ListReported(env: Env, ty: TypeExpr, path: Path, v: Value, issue: Issue)
    requires ty.List?
    ensures issue in Validate(env, ty, path, v).issues
       <==> path <= issue.path && Broken(env, ty, path == [], v, issue.path[|path|..], issue.code, issue.meta)
    decreases ty, 2
  {
    if v.List? {
      var r, c := Collect(ItemOutcomes(env, ty.of, path, v.items)), ty.constraints;
      ItemsReported(env, ty.of, path, v.items, issue);
      SizesReported(path, |r.values|, c.minSize, c.maxSize, issue);
    } else {
      MismatchReported(path, "list", issue);
    }
  }

  lemma {:induction false} DictReported(env: Env, ty: TypeExpr, path: Path, v: Value, issue: Issue)
    requires ty.Dict?
    ensures issue in Validate(env, ty, path, v).issues
       <==> path <= issue.path && Broken(env, ty, path == [], v, issue.path[|path|..], issue.code, issue.meta)
    decreases ty, 2
  {
    if v.Dict? {
      var r, c := Collect(EntryOutcomes(env, ty.value, path, v.entries)), ty.constraints;
      EntriesReported(env, ty.value, path, v.entries, issue);
      SizesReported(path, |r.values|, c.minSize, c.maxSize, issue);
    } else {
      MismatchReported(path, "dict", issue);
    }
  }

  lemma {:induction false} StructReported(env: Env, ty: TypeExpr, path: Path, v: Value, issue: Issue)
    requires ty.Struct?
    ensures issue in Validate(env, ty, path, v).issues
       <==> path <= issue.path && Broken(env, ty, path == [], v, issue.path[|path|..], issue.code, issue.meta)
    decreases ty, 2
  {
    if v.Dict? {
      var names, extra := FieldNames(ty.fields), EffectiveExtra(env, ty.extra, path);
      FieldsReported(env, ty, path, v.entries, issue);
      ExtrasReported(names, extra, path, v.entries, issue);
    } else {
      MismatchReported(path, "struct", issue);
    }
  }

  /** An issue is recorded exactly if its path leads on from where validation
      started, and what is wrong there calls for its code and its meta. */
  lemma {:induction false} IssuesAreFaults(env: Env, ty: TypeExpr, path: Path, v: Value, issue: Issue)
    ensures issue in Validate(env, ty, path, v).issues
       <==> path <= issue.path && Broken(env, ty, path == [], v, issue.path[|path|..], issue.code, issue.meta)
    decreases ty, 3
  {
    match ty
    case Primitive(primitive) => PrimitiveReported(env, primitive, path, v, issue);
    case Enum(variants) => EnumReported(env, variants, path, v, issue);
    case Optional(of) =>
      if !v.Null? {
        IssuesAreFaults(env, of, path, v, issue);
      }
    case List(_, _) => ListReported(env, ty, path, v, issue);
    case Dict(_, _) => DictReported(env, ty, path, v, issue);
    case Struct(_, _) => StructReported(env, ty, path, v, issue);
  }

  /** No issue is there twice. */
  ghost predicate Once(issues: seq<Issue>) {
    forall i, j | 0 <= i < j < |issues| :: issues[i] != issues[j]
  }

  ghost predicate Apart(a: seq<Issue>, b: seq<Issue>) {
    forall issue | issue in a :: issue !in b
  }

  lemma OnceAppend(a: seq<Issue>, b: seq<Issue>)
    requires Once(a) && Once(b) && Apart(a, b)
    ensures Once(a + b)
  {
    forall i, j | 0 <= i < j < |a + b| ensures (a + b)[i] != (a + b)[j] {
      if i < |a| <= j {
        assert a[i] in a && b[j - |a|] in b;
      }
    }
  }

  lemma {:induction false} OnceFirst<T>(outcomes: seq<Outcome<T>>, n: nat)
    requires n <= |outcomes| && forall i | 0 <= i < |outcomes| :: Once(outcomes[i].issues)
    requires forall i, j | 0 <= i < j < |outcomes| :: Apart(outcomes[i].issues, outcomes[j].issues)
    ensures Once(CollectFirst(outcomes, n).issues)
  {
    if n > 0 {
      OnceFirst(outcomes, n - 1);
      var front := CollectFirst(outcomes, n - 1).issues;
      forall issue | issue in front ensures issue !in outcomes[n - 1].issues {
        ReportedFirst(outcomes, n - 1, issue);
        var i :| 0 <= i < n - 1 && issue in outcomes[i].issues;
        assert Apart(outcomes[i].issues, outcomes[n - 1].issues);
      }
      OnceAppend(front, outcomes[n - 1].issues);
    }
  }

  /** Issues from below different steps have different paths. */
  lemma StepsApart(env: Env, of: TypeExpr, path: Path, step: Segment, other: Segment, v: Value, w: Value)
    requires step != other
    ensures Apart(Validate(env, of, path + [step], v).issues, Validate(env, of, path + [other], w).issues)
  {
    forall issue | issue in Validate(env, of, path + [step], v).issues
      ensures issue !in Validate(env, of, path + [other], w).issues
    {
      BelowReported(env, of, path, step, v, issue);
      BelowReported(env, of, path, other, w, issue);
    }
  }

  lemma StringOnce(path: Path, s: string, c: StringConstraints)
    ensures Once(StringIssues(path, s, c))
  {
    var sizes := SizeIssues(path, |s|, c.minSize, c.maxSize);
    var format := StringIssues(path, s, StringConstraints(None, None, c.format));
    assert forall issue | issue in sizes :: issue.code != "format_invalid";
    OnceAppend(sizes, format);
    assert StringIssues(path, s, c) == sizes + format;
  }

  lemma BoundsOnce(path: Path, i: I64, ints: IntConstraints, f: F64, floats: FloatConstraints)
    ensures Once(IntIssues(path, i, ints)) && Once(FloatIssues(path, f, floats))
  {
  }

  lemma PrimitiveOnce(env: Env, primitive: PrimitiveType, path: Path, v: Value)
    ensures Once(ValidatePrimitive(env, primitive, path, v).issues)
  {
    match primitive
    case Int(c) =>
      if AsInt(env, v).Some? {
        BoundsOnce(path, AsInt(env, v).value, c, NaN, FloatConstraints(None, None));
        assert ValidatePrimitive(env, primitive, path, v).issues == IntIssues(path, AsInt(env, v).value, c);
      }
    case Float(c) =>
      if AsFloat(env, v).Some? {
        BoundsOnce(path, 0, IntConstraints(None, None), AsFloat(env, v).value, c);
        assert ValidatePrimitive(env, primitive, path, v).issues == FloatIssues(path, AsFloat(env, v).value, c);
      }
    case String(c) =>
      if v.String? {
        StringOnce(path, v.s, c);
        assert ValidatePrimitive(env, primitive, path, v).issues == StringIssues(path, v.s, c);
      }
    case _ =>
  }

  lemma SizesOnce(path: Path, n: nat, minSize: Option<Usize>, maxSize: Option<Usize>, inner: seq<Issue>)
    requires Once(inner) && forall issue | issue in inner :: path < issue.path
    ensures Once(inner + SizeIssues(path, n, minSize, maxSize))
  {
    var sizes := SizeIssues(path, n, minSize, maxSize);
    assert forall issue | issue in sizes :: issue.path == path;
    OnceAppend(inner, sizes);
  }

  lemma {:induction false} ListOnce(env: Env, ty: TypeExpr, path: Path, v: Value)
    requires ty.List? && v.List? && KeysDistinct(v) && NamesDistinct(ty)
    ensures Once(Validate(env, ty, path, v).issues)
    decreases ty, 1
  {
    var outcomes := ItemOutcomes(env, ty.of, path, v.items);
    forall i | 0 <= i < |outcomes| ensures Once(outcomes[i].issues) {
      assert outcomes[i] == ItemOutcome(env, ty.of, path, i, v.items[i]);
      NoIssueTwice(env, ty.of, path + [Index(i)], v.items[i]);
    }
    forall i, j | 0 <= i < j < |outcomes| ensures Apart(outcomes[i].issues, outcomes[j].issues) {
      assert outcomes[i] == ItemOutcome(env, ty.of, path, i, v.items[i]);
      assert outcomes[j] == ItemOutcome(env, ty.of, path, j, v.items[j]);
      StepsApart(env, ty.of, path, Index(i), Index(j), v.items[i], v.items[j]);
    }
    OnceFirst(outcomes, |outcomes|);
    var r := Collect(outcomes);
    forall issue | issue in r.issues ensures path < issue.path {
      ItemsReported(env, ty.of, path, v.items, issue);
    }
    SizesOnce(path, |r.values|, ty.constraints.minSize, ty.constraints.maxSize, r.issues);
  }

  lemma {:induction false} DictOnce(env: Env, ty: TypeExpr, path: Path, v: Value)
    requires ty.Dict? && v.Dict? && KeysDistinct(v) && NamesDistinct(ty)
    ensures Once(Validate(env, ty, path, v).issues)
    decreases ty, 1
  {
    var outcomes := EntryOutcomes(env, ty.value, path, v.entries);
    forall i | 0 <= i < |outcomes| ensures Once(outcomes[i].issues) {
      assert outcomes[i] == EntryOutcome(env, ty.value, path, v.entries[i]);
      NoIssueTwice(env, ty.value, path + [Key(v.entries[i].key)], v.entries[i].value);
    }
    forall i, j | 0 <= i < j < |outcomes| ensures Apart(outcomes[i].issues, outcomes[j].issues) {
      var d, e := v.entries[i], v.entries[j];
      assert outcomes[i] == EntryOutcome(env, ty.value, path, d);
      assert outcomes[j] == EntryOutcome(env, ty.value, path, e);
      assert Keys(v.entries)[i] != Keys(v.entries)[j];
      StepsApart(env, ty.value, path, Key(d.key), Key(e.key), d.value, e.value);
    }
    OnceFirst(outcomes, |outcomes|);
    var r := Collect(outcomes);
    forall issue | issue in r.issues ensures path < issue.path {
      EntriesReported(env, ty.value, path, v.entries, issue);
    }
    SizesOnce(path, |r.values|, ty.constraints.minSize, ty.constraints.maxSize, r.issues);
  }

  /** Whatever is reported about a field is reported under its name. */
  lemma FieldUnderName(env: Env, field: FieldExpr, path: Path, entries: seq<Entry>, issue: Issue)
    requires issue in FieldOutcome(env, field, path, entries).issues
    ensures |path| < |issue.path| && issue.path[|path|] == Key(field.name)
  {
    FieldReported(env, field, path, entries, issue);
    assert issue.path[|path|..][0] == issue.path[|path|];
  }

  lemma {:induction false} FieldsOnce(env: Env, ty: TypeExpr, path: Path, entries: seq<Entry>)
    requires ty.Struct? && NamesDistinct(ty) && forall i | 0 <= i < |entries| :: KeysDistinct(entries[i].value)
    ensures Once(Collect(FieldOutcomes(env, ty, path, entries)).issues)
    decreases ty, 0
  {
    var outcomes := FieldOutcomes(env, ty, path, entries);
    forall i | 0 <= i < |outcomes| ensures Once(outcomes[i].issues) {
      var field := ty.fields[i];
      assert outcomes[i] == FieldOutcome(env, field, path, entries);
      if DictFind(entries, field.name).Some? {
        FindKeysDistinct(entries, field.name);
        NoIssueTwice(env, field.ty, path + [Key(field.name)], DictFind(entries, field.name).value);
      }
    }
    forall i, j | 0 <= i < j < |outcomes| ensures Apart(outcomes[i].issues, outcomes[j].issues) {
      assert outcomes[i] == FieldOutcome(env, ty.fields[i], path, entries);
      assert outcomes[j] == FieldOutcome(env, ty.fields[j], path, entries);
      assert FieldNames(ty.fields)[i] != FieldNames(ty.fields)[j];
      forall issue | issue in outcomes[i].issues ensures issue !in outcomes[j].issues {
        FieldUnderName(env, ty.fields[i], path, entries, issue);
        if issue in outcomes[j].issues {
          FieldUnderName(env, ty.fields[j], path, entries, issue);
          assert false;
        }
      }
    }
    OnceFirst(outcomes, |outcomes|);
  }

  lemma ExtrasOnce(names: seq<string>, extra: ExtraBehavior, path: Path, entries: seq<Entry>)
    requires Distinct(Keys(entries))
    ensures Once(Collect(ExtraOutcomes(names, extra, path, entries)).issues)
  {
    var outcomes := ExtraOutcomes(names, extra, path, entries);
    forall i | 0 <= i < |outcomes| ensures Once(outcomes[i].issues) {
      assert outcomes[i] == ExtraOutcome(names, extra, path, entries[i]);
    }
    forall i, j | 0 <= i < j < |outcomes| ensures Apart(outcomes[i].issues, outcomes[j].issues) {
      assert outcomes[i] == ExtraOutcome(names, extra, path, entries[i]);
      assert outcomes[j] == ExtraOutcome(names, extra, path, entries[j]);
      assert Keys(entries)[i] != Keys(entries)[j];
      assert (path + [Key(entries[i].key)])[|path|] != (path + [Key(entries[j].key)])[|path|];
    }
    OnceFirst(outcomes, |outcomes|);
  }

  lemma {:induction false} StructOnce(env: Env, ty: TypeExpr, path: Path, v: Value)
    requires ty.Struct? && v.Dict? && KeysDistinct(v) && NamesDistinct(ty)
    ensures Once(Validate(env, ty, path, v).issues)
    decreases ty, 1
  {
    var names, extra := FieldNames(ty.fields), EffectiveExtra(env, ty.extra, path);
    var slots := Collect(FieldOutcomes(env, ty, path, v.entries));
    var kept := Collect(ExtraOutcomes(names, extra, path, v.entries));
    FieldsOnce(env, ty, path, v.entries);
    ExtrasOnce(names, extra, path, v.entries);
    forall issue | issue in slots.issues ensures issue !in kept.issues {
      FieldsReported(env, ty, path, v.entries, issue);
      ExtrasReported(names, extra, path, v.entries, issue);
      var i :| 0 <= i < |ty.fields|
        && FieldBroken(env, ty.fields[i], v.entries, issue.path[|path|..], issue.code, issue.meta);
      assert names[i] == ty.fields[i].name;
    }
    OnceAppend(slots.issues, kept.issues);
  }

  /** With distinct keys and names nothing is reported twice: the recorded list
      is then exactly the set of what is wrong. */
  lemma {:induction false} NoIssueTwice(env: Env, ty: TypeExpr, path: Path, v: Value)
    requires KeysDistinct(v) && NamesDistinct(ty)
    ensures Once(Validate(env, ty, path, v).issues)
    decreases ty, 2
  {
    match ty
    case Primitive(primitive) => PrimitiveOnce(env, primitive, path, v);
    case Enum(_) =>
    case Optional(of) =>
      if !v.Null? {
        NoIssueTwice(env, of, path, v);
      }
    case List(_, _) =>
      if v.List? {
        ListOnce(env, ty, path, v);
      }
    case Dict(_, _) =>
      if v.Dict? {
        DictOnce(env, ty, path, v);
      }
    case Struct(_, _) =>
      if v.Dict? {
        StructOnce(env, ty, path, v);
      }
  }

  /** A list or dict is reported short exactly if too few of its elements are
      usable, whether or not it has enough elements. */
  lemma ShortExactly(env: Env, ty: TypeExpr, path: Path, v: Value, min: Usize)
    requires (ty.List? && v.List?) || (ty.Dict? && v.Dict?)
    requires ty.constraints.minSize == Some(min)
    ensures Issue(path, "too_short", map["min" := Number(UsizeAsI64(min))]) in Validate(env, ty, path, v).issues
       <==> (if ty.List? then CountUsable(env, ty.of, v.items)
             else CountUsable(env, ty.value, EntryValues(v.entries))) < min
  {
    var issue := Issue(path, "too_short", map["min" := Number(UsizeAsI64(min))]);
    IssuesAreFaults(env, ty, path, v, issue);
    assert issue.path[|path|..] == [];
  }

  lemma {:induction false} CountUsableBound(env: Env, ty: TypeExpr, items: seq<Value>)
    ensures CountUsable(env, ty, items) <= |items|
    ensures CountUsable(env, ty, items) == |items| <==> forall i | 0 <= i < |items| :: Usable(env, ty, items[i])
  {
    if items != [] {
      CountUsableBound(env, ty, items[..|items| - 1]);
      assert items == items[..|items| - 1] + [items[|items| - 1]];
    }
  }

  /** A list that is long enough is reported short only because elements were
      dropped, each with an issue of its own. */
  lemma ShortBecauseDropped(env: Env, ty: TypeExpr, path: Path, items: seq<Value>, min: Usize) returns (i: nat)
    requires ty.List? && ty.constraints.minSize == Some(min) && min <= |items|
    requires Issue(path, "too_short", map["min" := Number(UsizeAsI64(min))])
          in Validate(env, ty, path, Value.List(items)).issues
    ensures i < |items| && !Usable(env, ty.of, items[i])
    ensures Validate(env, ty.of, path + [Index(i)], items[i]).issues != []
  {
    ShortExactly(env, ty, path, Value.List(items), min);
    CountUsableBound(env, ty.of, items);
    i :| 0 <= i < |items| && !Usable(env, ty.of, items[i]);
    KeptIfUsable(env, ty.of, path + [Index(i)], items[i]);
    NoSilentFailure(env, ty.of, path + [Index(i)], items[i]);
  }

  /** It does happen: two elements, at least two asked for, one not a boolean. */
  lemma LongEnoughYetShort(env: Env)
    ensures var ty := TypeExpr.List(TypeExpr.Primitive(PrimitiveType.Bool), CollectionConstraints(Some(2), None));
            var v := Value.List([Value.Bool(true), Value.Null]);
            Validate(env, ty, [], v) == Outcome(Some(Value.List([Value.Bool(true)])),
              [Issue([Index(1)], "type_mismatch", map["expected" := Text("bool")]),
               Issue([], "too_short", map["min" := Number(2)])])
  {
    var of := TypeExpr.Primitive(PrimitiveType.Bool);
    var outcomes := ItemOutcomes(env, of, [], [Value.Bool(true), Value.Null]);
    assert outcomes[0] == ItemOutcome(env, of, [], 0, Value.Bool(true)) == Accept(Value.Bool(true));
    assert [] + [Index(1)] == [Index(1)];
    assert outcomes[1] == ItemOutcome(env, of, [], 1, Value.Null) == Mismatch<Value>([Index(1)], "bool");
    assert CollectFirst(outcomes, 1) == Collected([Value.Bool(true)], []);
    assert CollectFirst(outcomes, 2) == Collected([Value.Bool(true)], outcomes[1].issues);
  }
}
