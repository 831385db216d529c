/** What validation means, as a function on type expressions: the branches of
    `validation/engine.rs`, with issue paths kept as segments. */
module Validation {
  import opened Wrappers
  import opened Values
  import opened Schema
  import opened Paths

  datatype MetaValue = Text(s: string) | Number(n: int) | Real(r: real) | Texts(list: seq<string>)

  type Meta = map<string, MetaValue>

  datatype Issue = Issue(path: Path, code: string, meta: Meta)

  /** Library functions the engine calls: any total functions will do. */
  datatype Runtime = Runtime(
    trim: string -> string,
    parseI64: string -> Option<I64>,
    parseF64: string -> Option<F64>,
    intToF64: int -> F64)

  /** The two options that decide validation, and the library it runs on. */
  datatype Env = Env(runtime: Runtime, strict: bool, extraBehavior: ExtraBehavior)

  datatype Outcome<+T> = Outcome(value: Option<T>, issues: seq<Issue>)

  function Accept<T>(value: T): Outcome<T> {
    Outcome(Some(value), [])
  }

  function Reject<T>(path: Path, code: string, meta: Meta): Outcome<T> {
    Outcome(None, [Issue(path, code, meta)])
  }

  function Mismatch<T>(path: Path, expected: string): Outcome<T> {
    Reject(path, "type_mismatch", map["expected" := Text(expected)])
  }

  function CoerceFailed<T>(path: Path, v: Value): Outcome<T> {
    Reject(path, "coerce_failed", map["from" := Text(TypeName(v))])
  }

  /** What survives of a sequence of outcomes, and every issue in order. */
  datatype Collected<+T> = Collected(values: seq<T>, issues: seq<Issue>)

  function CollectFirst<T>(outcomes: seq<Outcome<T>>, n: nat): Collected<T>
    requires n <= |outcomes|
  {
    if n == 0 then Collected([], [])
    else
      var front := CollectFirst(outcomes, n - 1);
      var last := outcomes[n - 1];
      Collected(front.values + (if last.value.Some? then [last.value.value] else []),
                front.issues + last.issues)
  }

  function Collect<T>(outcomes: seq<Outcome<T>>): Collected<T> {
    CollectFirst(outcomes, |outcomes|)
  }

  function AsciiLower(c: char): char {
    if 'A' <= c <= 'Z' then (c as int + 32) as char else c
  }

  predicate EqIgnoreAsciiCase(s: string, t: string) {
    |s| == |t| && forall i | 0 <= i < |s| :: AsciiLower(s[i]) == AsciiLower(t[i])
  }

  function ReadBool(s: string): Option<bool> {
    if EqIgnoreAsciiCase(s, "true") || s == "1" then Some(true)
    else if EqIgnoreAsciiCase(s, "false") || s == "0" then Some(false)
    else None
  }

  function FromText<T>(path: Path, v: Value, read: Option<T>): Outcome<T> {
    match read
    case Some(x) => Accept(x)
    case None => CoerceFailed(path, v)
  }

  function CoerceBool(env: Env, path: Path, v: Value): Outcome<bool> {
    if v.Bool? then Accept(v.b)
    else if v.String? && !env.strict then FromText(path, v, ReadBool(v.s))
    else Mismatch(path, "bool")
  }

  function CoerceInt(env: Env, path: Path, v: Value): Outcome<I64> {
    if v.Int? then Accept(v.i)
    else if v.String? && !env.strict then
      FromText(path, v, env.runtime.parseI64(env.runtime.trim(v.s)))
    else Mismatch(path, "int")
  }

  function CoerceFloat(env: Env, path: Path, v: Value): Outcome<F64> {
    if v.Float? then Accept(v.f)
    else if v.Int? then Accept(env.runtime.intToF64(v.i))
    else if v.String? && !env.strict then
      FromText(path, v, env.runtime.parseF64(env.runtime.trim(v.s)))
    else Mismatch(path, "float")
  }

  function CoerceString(path: Path, v: Value): Outcome<string> {
    if v.String? then Accept(v.s) else Mismatch(path, "str")
  }

  function CoerceSymbol(env: Env, path: Path, v: Value): Outcome<string> {
    if v.Symbol? then Accept(v.name)
    else if v.String? && !env.strict then Accept(v.s)
    else Mismatch(path, "sym")
  }

  function IssueIf(broken: bool, path: Path, code: string, meta: Meta): seq<Issue> {
    if broken then [Issue(path, code, meta)] else []
  }

  function IntIssues(path: Path, i: I64, c: IntConstraints): seq<Issue> {
    (match c.min
     case Some(min) => IssueIf(i < min, path, "too_small", map["min" := Number(min)])
     case None => []) +
    (match c.max
     case Some(max) => IssueIf(i > max, path, "too_large", map["max" := Number(max)])
     case None => [])
  }

  /** JSON has no number for NaN or an infinity: the bound is then left out. */
  function FloatMeta(key: string, bound: F64): Meta {
    if bound.Finite? then map[key := Real(bound.r)] else map[]
  }

  function FloatIssues(path: Path, f: F64, c: FloatConstraints): seq<Issue> {
    (match c.min
     case Some(min) => IssueIf(Less(f, min), path, "too_small", FloatMeta("min", min))
     case None => []) +
    (match c.max
     case Some(max) => IssueIf(Less(max, f), path, "too_large", FloatMeta("max", max))
     case None => [])
  }

  function SizeIssues(path: Path, n: nat, minSize: Option<Usize>, maxSize: Option<Usize>): seq<Issue> {
    (match minSize
     case Some(min) => IssueIf(n < min, path, "too_short", map["min" := Number(UsizeAsI64(min))])
     case None => []) +
    (match maxSize
     case Some(max) => IssueIf(n > max, path, "too_long", map["max" := Number(UsizeAsI64(max))])
     case None => [])
  }

  predicate IsHexDigit(c: char) {
    '0' <= c <= '9' || 'a' <= c <= 'f' || 'A' <= c <= 'F'
  }

  /** 36 characters, dashes at four fixed places, hex digits elsewhere. Only
      ASCII passes, so counting characters or bytes makes no difference. */
  predicate IsUuid(s: string) {
    |s| == 36 && forall i | 0 <= i < 36 :: if i in {8, 13, 18, 23} then s[i] == '-' else IsHexDigit(s[i])
  }

  predicate IsUrlLike(s: string) {
    "http://" <= s || "https://" <= s
  }

  predicate HasFormat(format: StringFormat, s: string) {
    match format
    case Email => '@' in s
    case Uuid => IsUuid(s)
    case Url => IsUrlLike(s)
  }

  function FormatName(format: StringFormat): string {
    match format
    case Email => "email"
    case Uuid => "uuid"
    case Url => "url"
  }

  function StringIssues(path: Path, s: string, c: StringConstraints): seq<Issue> {
    SizeIssues(path, |s|, c.minSize, c.maxSize) +
    match c.format
    case Some(format) =>
      IssueIf(!HasFormat(format, s), path, "format_invalid", map["kind" := Text(FormatName(format))])
    case None => []
  }

  function ValidatePrimitive(env: Env, primitive: PrimitiveType, path: Path, v: Value): Outcome<Value> {
    match primitive
    case Any => Accept(v)
    case Bool =>
      var r := CoerceBool(env, path, v);
      if r.value.Some? then Outcome(Some(Value.Bool(r.value.value)), r.issues) else Outcome(None, r.issues)
    case Int(c) =>
      var r := CoerceInt(env, path, v);
      if r.value.Some?
      then Outcome(Some(Value.Int(r.value.value)), r.issues + IntIssues(path, r.value.value, c))
      else Outcome(None, r.issues)
    case Float(c) =>
      var r := CoerceFloat(env, path, v);
      if r.value.Some?
      then Outcome(Some(Value.Float(r.value.value)), r.issues + FloatIssues(path, r.value.value, c))
      else Outcome(None, r.issues)
    case String(c) =>
      var r := CoerceString(path, v);
      if r.value.Some?
      then Outcome(Some(Value.String(r.value.value)), r.issues + StringIssues(path, r.value.value, c))
      else Outcome(None, r.issues)
    case Symbol =>
      var r := CoerceSymbol(env, path, v);
      if r.value.Some? then Outcome(Some(Value.Symbol(r.value.value)), r.issues) else Outcome(None, r.issues)
  }

  function ValidateEnum(env: Env, variants: seq<string>, path: Path, v: Value): Outcome<Value> {
    if v.Symbol? || (v.String? && !env.strict) then
      var text := if v.Symbol? then v.name else v.s;
      if text in variants then Accept(Value.Symbol(text))
      else Reject(path, "value_not_in", map["list" := Texts(variants)])
    else Mismatch(path, "enum")
  }

  /** A struct field always fills its slot, with nothing if it did not validate. */
  function Slot(r: Outcome<Value>): Outcome<Option<Value>> {
    Outcome(Some(r.value), r.issues)
  }

  function MissingField(field: FieldExpr, path: Path): Outcome<Option<Value>> {
    Outcome(Some(None),
            if field.presence.Required? then [Issue(path, "required_missing", map[])] else [])
  }

  function ExtraOutcome(names: seq<string>, extra: ExtraBehavior, path: Path, e: Entry): Outcome<Entry> {
    if e.key in names then Outcome(None, [])
    else
      match extra
      case Forbid => Reject(path + [Key(e.key)], "extra_key", map["name" := Text(e.key)])
      case Ignore => Outcome(None, [])
      case Allow => Accept(e)
  }

  function ExtraOutcomes(names: seq<string>, extra: ExtraBehavior, path: Path, entries: seq<Entry>)
    : seq<Outcome<Entry>>
  {
    seq(|entries|, i requires 0 <= i < |entries| => ExtraOutcome(names, extra, path, entries[i]))
  }

  /** At the root the option decides; everywhere else the struct itself does. */
  function EffectiveExtra(env: Env, extra: ExtraBehavior, path: Path): ExtraBehavior {
    if path == [] then env.extraBehavior else extra
  }

  function ItemOutcome(env: Env, of: TypeExpr, path: Path, index: nat, item: Value): Outcome<Value>
    decreases of, 2
  {
    Validate(env, of, path + [Index(index)], item)
  }

  function ItemOutcomes(env: Env, of: TypeExpr, path: Path, items: seq<Value>): seq<Outcome<Value>>
    decreases of, 3
  {
    seq(|items|, i requires 0 <= i < |items| => ItemOutcome(env, of, path, i, items[i]))
  }

  /** A dict element keeps its key. */
  function EntryOutcome(env: Env, of: TypeExpr, path: Path, e: Entry): Outcome<Entry>
    decreases of, 2
  {
    var r := Validate(env, of, path + [Key(e.key)], e.value);
    Outcome(if r.value.Some? then Some(Entry(e.key, r.value.value)) else None, r.issues)
  }

  function EntryOutcomes(env: Env, of: TypeExpr, path: Path, entries: seq<Entry>): seq<Outcome<Entry>>
    decreases of, 3
  {
    seq(|entries|, i requires 0 <= i < |entries| => EntryOutcome(env, of, path, entries[i]))
  }

  function FieldOutcome(env: Env, field: FieldExpr, path: Path, entries: seq<Entry>): Outcome<Option<Value>>
    decreases field
  {
    match DictFind(entries, field.name)
    case Some(v) => Slot(Validate(env, field.ty, path + [Key(field.name)], v))
    case None => MissingField(field, path + [Key(field.name)])
  }

  function FieldOutcomes(env: Env, ty: TypeExpr, path: Path, entries: seq<Entry>): seq<Outcome<Option<Value>>>
    requires ty.Struct?
    decreases ty, 0
  {
    seq(|ty.fields|, i requires 0 <= i < |ty.fields| => FieldOutcome(env, ty.fields[i], path, entries))
  }

  function Validate(env: Env, ty: TypeExpr, path: Path, v: Value): Outcome<Value>
    decreases ty, 1
  {
    match ty
    case Primitive(primitive) => ValidatePrimitive(env, primitive, path, v)
    case Enum(variants) => ValidateEnum(env, variants, path, v)
    case Optional(of) => if v.Null? then Accept(v) else Validate(env, of, path, v)
    case List(of, c) =>
      if !v.List? then Mismatch(path, "list")
      else
        var r := Collect(ItemOutcomes(env, of, path, v.items));
        Outcome(Some(Value.List(r.values)),
                r.issues + SizeIssues(path, |r.values|, c.minSize, c.maxSize))
    case Dict(of, c) =>
      if !v.Dict? then Mismatch(path, "dict")
      else
        var r := Collect(EntryOutcomes(env, of, path, v.entries));
        Outcome(Some(Value.Dict(r.values)),
                r.issues + SizeIssues(path, |r.values|, c.minSize, c.maxSize))
    case Struct(fields, extra) =>
      if !v.Dict? then Mismatch(path, "struct")
      else
        var names := FieldNames(fields);
        var slots := Collect(FieldOutcomes(env, ty, path, v.entries));
        var kept := Collect(ExtraOutcomes(names, EffectiveExtra(env, extra, path), path, v.entries));
        Outcome(Some(Value.Struct(names, slots.values, kept.values)), slots.issues + kept.issues)
  }

  /** A run from the root: issues suppress the output. */
  function Run(env: Env, ty: TypeExpr, v: Value): Outcome<Value> {
    var r := Validate(env, ty, [], v);
    if r.issues == [] then r else Outcome(None, r.issues)
  }
}
