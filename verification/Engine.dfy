/** The stateful engine of `validation/engine.rs`: it walks the shared arena
    with one path stack and one issue list, and is proved to compute what
    `Validation.Validate` says about the unshared type. */
module Engine {
  import opened Wrappers
  import opened Values
  import opened Schema
  import opened Paths
  import opened HashConsing
  import opened Validation
  import opened WorkBound
  import opened Accounts

  function Report(issue: Issue): ValidationIssue {
    ValidationIssue(Render(issue.path), issue.code, issue.meta)
  }

  function Reports(issues: seq<Issue>): seq<ValidationIssue> {
    seq(|issues|, i requires 0 <= i < |issues| => Report(issues[i]))
  }

  /** One loop step over a sequence of outcomes, with issues going after `base`. */
  lemma CollectStep<T>(base: seq<Issue>, outcomes: seq<Outcome<T>>, n: nat)
    requires n < |outcomes|
    ensures base + CollectFirst(outcomes, n + 1).issues
         == (base + CollectFirst(outcomes, n).issues) + outcomes[n].issues
    ensures CollectFirst(outcomes, n + 1).values
         == CollectFirst(outcomes, n).values
          + (if outcomes[n].value.Some? then [outcomes[n].value.value] else [])
  {
  }

  method FindInDict(entries: seq<Entry>, key: string) returns (r: Option<Value>)
    ensures r == DictFind(entries, key)
  {
    for n := 0 to |entries|
      invariant DictFind(entries, key) == DictFind(entries[n..], key)
    {
      if entries[n].key == key {
        return Some(entries[n].value);
      }
      assert entries[n..][1..] == entries[n + 1..];
    }
    return None;
  }

  /** Position of the first field with this name. */
  method FindFieldIndex(names: seq<string>, key: string) returns (r: Option<nat>)
    ensures r.Some? <==> key in names
    ensures r.Some? ==> r.value < |names| && names[r.value] == key && key !in names[..r.value]
  {
    for n := 0 to |names|
      invariant key !in names[..n]
    {
      if names[n] == key {
        return Some(n);
      }
    }
    return None;
  }

  class Validator {
    const schema: SchemaIr
    const env: Env
    var path: Path
    var issues: seq<ValidationIssue>
    /** The recorded issues with their paths still in segments. */
    ghost var trace: seq<Issue>
    /** Calls of the node dispatch so far. */
    ghost var visits: nat

    constructor (schema: SchemaIr, env: Env)
      ensures this.schema == schema && this.env == env
      ensures path == [] && trace == [] && visits == 0 && (Layered(schema.nodes) && schema.root < |schema.nodes| ==> Valid())
    {
      this.schema := schema;
      this.env := env;
      path := [];
      issues := [];
      trace := [];
      visits := 0;
    }

    ghost predicate Valid()
      reads this
    {
      && Layered(schema.nodes) && schema.root < |schema.nodes|
      && issues == Reports(trace)
    }

    /** The path stack is as before; these issues, and no others, were added. */
    ghost predicate Recorded(path0: Path, trace0: seq<Issue>, added: seq<Issue>)
      reads this
    {
      && Valid()
      && path == path0
      && trace == trace0 + added
    }

    method PushIssue(code: string, meta: Meta)
      requires Valid()
      modifies `issues, `trace
      ensures Recorded(old(path), old(trace), [Issue(path, code, meta)])
    {
      var rendered := FormatPath(path);
      issues := issues + [ValidationIssue(rendered, code, meta)];
      trace := trace + [Issue(path, code, meta)];
    }

    method PushIssueIf(broken: bool, code: string, meta: Meta)
      requires Valid()
      modifies `issues, `trace
      ensures Recorded(old(path), old(trace), IssueIf(broken, path, code, meta))
    {
      if broken {
        PushIssue(code, meta);
      }
    }

    method RecordTypeMismatch(expected: string)
      requires Valid()
      modifies `issues, `trace
      ensures Recorded(old(path), old(trace), Mismatch<Value>(path, expected).issues)
    {
      PushIssue("type_mismatch", map["expected" := Text(expected)]);
    }

    method RecordCoerceFailed(from: Value)
      requires Valid()
      modifies `issues, `trace
      ensures Recorded(old(path), old(trace), CoerceFailed<Value>(path, from).issues)
    {
      PushIssue("coerce_failed", map["from" := Text(TypeName(from))]);
    }

    method RecordValueNotIn(variants: seq<string>)
      requires Valid()
      modifies `issues, `trace
      ensures Recorded(old(path), old(trace), [Issue(path, "value_not_in", map["list" := Texts(variants)])])
    {
      PushIssue("value_not_in", map["list" := Texts(variants)]);
    }

    method CoerceBool(value: Value) returns (r: Option<bool>)
      requires Valid()
      modifies `issues, `trace
      ensures r == Validation.CoerceBool(env, path, value).value
      ensures Recorded(old(path), old(trace), Validation.CoerceBool(env, path, value).issues)
    {
      match value
      case Bool(b) => r := Some(b);
      case String(raw) =>
        if env.strict {
          RecordTypeMismatch("bool");
          r := None;
        } else if EqIgnoreAsciiCase(raw, "true") || raw == "1" {
          r := Some(true);
        } else if EqIgnoreAsciiCase(raw, "false") || raw == "0" {
          r := Some(false);
        } else {
          RecordCoerceFailed(value);
          r := None;
        }
      case _ =>
        RecordTypeMismatch("bool");
        r := None;
    }

    method CoerceInt(value: Value) returns (r: Option<I64>)
      requires Valid()
      modifies `issues, `trace
      ensures r == Validation.CoerceInt(env, path, value).value
      ensures Recorded(old(path), old(trace), Validation.CoerceInt(env, path, value).issues)
    {
      if value.Int? {
        r := Some(value.i);
      } else if value.String? && !env.strict {
        r := env.runtime.parseI64(env.runtime.trim(value.s));
        if r.None? {
          RecordCoerceFailed(value);
        }
      } else {
        RecordTypeMismatch("int");
        r := None;
      }
    }

    method CoerceFloat(value: Value) returns (r: Option<F64>)
      requires Valid()
      modifies `issues, `trace
      ensures r == Validation.CoerceFloat(env, path, value).value
      ensures Recorded(old(path), old(trace), Validation.CoerceFloat(env, path, value).issues)
    {
      if value.Float? {
        r := Some(value.f);
      } else if value.Int? {
        r := Some(env.runtime.intToF64(value.i));
      } else if value.String? && !env.strict {
        r := env.runtime.parseF64(env.runtime.trim(value.s));
        if r.None? {
          RecordCoerceFailed(value);
        }
      } else {
        RecordTypeMismatch("float");
        r := None;
      }
    }

    method CoerceString(value: Value) returns (r: Option<string>)
      requires Valid()
      modifies `issues, `trace
      ensures r == Validation.CoerceString(path, value).value
      ensures Recorded(old(path), old(trace), Validation.CoerceString(path, value).issues)
    {
      if value.String? {
        r := Some(value.s);
      } else {
        RecordTypeMismatch("str");
        r := None;
      }
    }

    method CoerceSymbol(value: Value) returns (r: Option<string>)
      requires Valid()
      modifies `issues, `trace
      ensures r == Validation.CoerceSymbol(env, path, value).value
      ensures Recorded(old(path), old(trace), Validation.CoerceSymbol(env, path, value).issues)
    {
      if value.Symbol? {
        r := Some(value.name);
      } else if value.String? && !env.strict {
        r := Some(value.s);
      } else {
        RecordTypeMismatch("sym");
        r := None;
      }
    }

    method ApplyIntConstraints(value: I64, c: IntConstraints)
      requires Valid()
      modifies `issues, `trace
      ensures Recorded(old(path), old(trace), IntIssues(path, value, c))
    {
      if c.min.Some? {
        PushIssueIf(value < c.min.value, "too_small", map["min" := Number(c.min.value)]);
      }
      if c.max.Some? {
        PushIssueIf(value > c.max.value, "too_large", map["max" := Number(c.max.value)]);
      }
    }

    method ApplyFloatConstraints(value: F64, c: FloatConstraints)
      requires Valid()
      modifies `issues, `trace
      ensures Recorded(old(path), old(trace), FloatIssues(path, value, c))
    {
      if c.min.Some? {
        PushIssueIf(Less(value, c.min.value), "too_small", FloatMeta("min", c.min.value));
      }
      if c.max.Some? {
        PushIssueIf(Less(c.max.value, value), "too_large", FloatMeta("max", c.max.value));
      }
    }

    method ApplySizeConstraints(length: nat, minSize: Option<Usize>, maxSize: Option<Usize>)
      requires Valid()
      modifies `issues, `trace
      ensures Recorded(old(path), old(trace), SizeIssues(path, length, minSize, maxSize))
    {
      if minSize.Some? {
        PushIssueIf(length < minSize.value, "too_short", map["min" := Number(UsizeAsI64(minSize.value))]);
      }
      if maxSize.Some? {
        PushIssueIf(length > maxSize.value, "too_long", map["max" := Number(UsizeAsI64(maxSize.value))]);
      }
    }

    method ApplyStringConstraints(value: string, c: StringConstraints)
      requires Valid()
      modifies `issues, `trace
      ensures Recorded(old(path), old(trace), StringIssues(path, value, c))
    {
      ApplySizeConstraints(|value|, c.minSize, c.maxSize);
      if c.format.Some? {
        PushIssueIf(!HasFormat(c.format.value, value), "format_invalid",
                    map["kind" := Text(FormatName(c.format.value))]);
      }
    }

    method ValidateInt(c: IntConstraints, value: Value) returns (r: Option<Value>)
      requires Valid()
      modifies `issues, `trace
      ensures r == Validation.ValidatePrimitive(env, PrimitiveType.Int(c), path, value).value
      ensures Recorded(old(path), old(trace), Validation.ValidatePrimitive(env, PrimitiveType.Int(c), path, value).issues)
    {
      var coerced := CoerceInt(value);
      if coerced.Some? {
        ApplyIntConstraints(coerced.value, c);
        r := Some(Value.Int(coerced.value));
      } else {
        r := None;
      }
    }

    method ValidateFloat(c: FloatConstraints, value: Value) returns (r: Option<Value>)
      requires Valid()
      modifies `issues, `trace
      ensures r == Validation.ValidatePrimitive(env, PrimitiveType.Float(c), path, value).value
      ensures Recorded(old(path), old(trace), Validation.ValidatePrimitive(env, PrimitiveType.Float(c), path, value).issues)
    {
      var coerced := CoerceFloat(value);
      if coerced.Some? {
        ApplyFloatConstraints(coerced.value, c);
        r := Some(Value.Float(coerced.value));
      } else {
        r := None;
      }
    }

    method ValidateString(c: StringConstraints, value: Value) returns (r: Option<Value>)
      requires Valid()
      modifies `issues, `trace
      ensures r == Validation.ValidatePrimitive(env, PrimitiveType.String(c), path, value).value
      ensures Recorded(old(path), old(trace), Validation.ValidatePrimitive(env, PrimitiveType.String(c), path, value).issues)
    {
      var coerced := CoerceString(value);
      if coerced.Some? {
        ApplyStringConstraints(coerced.value, c);
        r := Some(Value.String(coerced.value));
      } else {
        r := None;
      }
    }

    method ValidatePrimitive(primitive: PrimitiveType, value: Value) returns (r: Option<Value>)
      requires Valid()
      modifies `issues, `trace
      ensures r == Validation.ValidatePrimitive(env, primitive, path, value).value
      ensures Recorded(old(path), old(trace), Validation.ValidatePrimitive(env, primitive, path, value).issues)
    {
      r := None;
      match primitive
      case Any => r := Some(value);
      case Bool =>
        var coerced := CoerceBool(value);
        if coerced.Some? {
          r := Some(Value.Bool(coerced.value));
        }
      case Int(c) => r := ValidateInt(c, value);
      case Float(c) => r := ValidateFloat(c, value);
      case String(c) => r := ValidateString(c, value);
      case Symbol =>
        var coerced := CoerceSymbol(value);
        if coerced.Some? {
          r := Some(Value.Symbol(coerced.value));
        }
    }

    method ValidateEnum(variants: seq<string>, value: Value) returns (r: Option<Value>)
      requires Valid()
      modifies `issues, `trace
      ensures r == Validation.ValidateEnum(env, variants, path, value).value
      ensures Recorded(old(path), old(trace), Validation.ValidateEnum(env, variants, path, value).issues)
    {
      r := None;
      if value.Symbol? {
        if value.name in variants {
          r := Some(Value.Symbol(value.name));
        } else {
          RecordValueNotIn(variants);
        }
      } else if value.String? && !env.strict {
        if value.s in variants {
          r := Some(Value.Symbol(value.s));
        } else {
          RecordValueNotIn(variants);
        }
      } else {
        RecordTypeMismatch("enum");
      }
    }

    method ValidateNode(id: NodeId, value: Value) returns (r: Option<Value>)
      requires Valid() && id < |schema.nodes|
      modifies this
      ensures r == Validate(env, Unfold(schema.nodes, id), path, value).value
      ensures Recorded(old(path), old(trace), Validate(env, Unfold(schema.nodes, id), path, value).issues)
      ensures visits == old(visits) + Visits(schema.nodes, id, value)
      decreases id, 1
    {
      assert ChildrenBelow(schema.nodes[id], id);
      visits := visits + 1;
      match schema.nodes[id]
      case Primitive(primitive) => r := ValidatePrimitive(primitive, value);
      case Enum(variants) => r := ValidateEnum(variants, value);
      case Optional(of) => r := ValidateOptional(id, of, value);
      case List(of, c) => r := ValidateList(id, of, c, value);
      case Dict(of, c) => r := ValidateDict(id, of, c, value);
      case Struct(fields, extra) => r := ValidateStruct(id, fields, extra, value);
    }

    /** Validates one step down, with the step on the path stack meanwhile. */
    method ValidateBelow(step: Segment, id: NodeId, value: Value, ghost outcome: Outcome<Value>)
      returns (r: Option<Value>)
      requires Valid() && id < |schema.nodes|
      requires outcome == Validate(env, Unfold(schema.nodes, id), path + [step], value)
      modifies this
      ensures r == outcome.value && Recorded(old(path), old(trace), outcome.issues)
      ensures visits == old(visits) + Visits(schema.nodes, id, value)
      decreases id, 2
    {
      path := path + [step];
      r := ValidateNode(id, value);
      path := path[..|path| - 1];
    }

    method ValidateOptional(ghost id: NodeId, of: NodeId, value: Value) returns (r: Option<Value>)
      requires Valid() && id < |schema.nodes| && schema.nodes[id] == Node.Optional(of) && of < id
      modifies this
      ensures r == Validate(env, Unfold(schema.nodes, id), path, value).value
      ensures Recorded(old(path), old(trace), Validate(env, Unfold(schema.nodes, id), path, value).issues)
      ensures visits == old(visits) + Visits(schema.nodes, id, value) - 1
      decreases id, 0
    {
      if value.Null? {
        r := Some(Value.Null);
      } else {
        r := ValidateNode(of, value);
      }
    }

    /** The element loop of a list: invalid elements are dropped. */
    method ValidateItems(of: NodeId, list: seq<Value>) returns (output: seq<Value>)
      requires Valid() && of < |schema.nodes|
      modifies this
      ensures output == Collect(ItemOutcomes(env, Unfold(schema.nodes, of), path, list)).values
      ensures Recorded(old(path), old(trace), Collect(ItemOutcomes(env, Unfold(schema.nodes, of), path, list)).issues)
      ensures visits == old(visits) + Sum(ItemVisits(schema.nodes, of, list))
      decreases of, 3
    {
      ghost var outcomes := ItemOutcomes(env, Unfold(schema.nodes, of), path, list);
      ghost var counts := ItemVisits(schema.nodes, of, list);
      output := [];
      for index := 0 to |list|
        invariant Recorded(old(path), old(trace), CollectFirst(outcomes, index).issues)
        invariant output == CollectFirst(outcomes, index).values
        invariant visits == old(visits) + SumFirst(counts, index)
      {
        assert outcomes[index] == ItemOutcome(env, Unfold(schema.nodes, of), path, index, list[index]);
        var validated := ValidateBelow(Index(index), of, list[index], outcomes[index]);
        if validated.Some? {
          output := output + [validated.value];
        }
        CollectStep(old(trace), outcomes, index);
      }
    }

    method ValidateList(ghost id: NodeId, of: NodeId, c: CollectionConstraints, value: Value)
      returns (r: Option<Value>)
      requires Valid() && id < |schema.nodes| && schema.nodes[id] == Node.List(of, c) && of < id
      modifies this
      ensures r == Validate(env, Unfold(schema.nodes, id), path, value).value
      ensures Recorded(old(path), old(trace), Validate(env, Unfold(schema.nodes, id), path, value).issues)
      ensures visits == old(visits) + Visits(schema.nodes, id, value) - 1
      decreases id, 0
    {
      if !value.List? {
        RecordTypeMismatch("list");
        return None;
      }
      var output := ValidateItems(of, value.items);
      ApplySizeConstraints(|output|, c.minSize, c.maxSize);
      r := Some(Value.List(output));
    }

    /** The entry loop of a dict: entries with invalid values are dropped. */
    method ValidateEntries(of: NodeId, entries: seq<Entry>) returns (output: seq<Entry>)
      requires Valid() && of < |schema.nodes|
      modifies this
      ensures output == Collect(EntryOutcomes(env, Unfold(schema.nodes, of), path, entries)).values
      ensures Recorded(old(path), old(trace), Collect(EntryOutcomes(env, Unfold(schema.nodes, of), path, entries)).issues)
      ensures visits == old(visits) + Sum(EntryVisits(schema.nodes, of, entries))
      decreases of, 3
    {
      ghost var outcomes := EntryOutcomes(env, Unfold(schema.nodes, of), path, entries);
      ghost var counts := EntryVisits(schema.nodes, of, entries);
      output := [];
      for n := 0 to |entries|
        invariant Recorded(old(path), old(trace), CollectFirst(outcomes, n).issues)
        invariant output == CollectFirst(outcomes, n).values
        invariant visits == old(visits) + SumFirst(counts, n)
      {
        var key := entries[n].key;
        assert outcomes[n] == EntryOutcome(env, Unfold(schema.nodes, of), path, entries[n]);
        ghost var outcome := Validate(env, Unfold(schema.nodes, of), path + [Key(key)], entries[n].value);
        var validated := ValidateBelow(Key(key), of, entries[n].value, outcome);
        if validated.Some? {
          output := output + [Entry(key, validated.value)];
        }
        CollectStep(old(trace), outcomes, n);
      }
    }

    method ValidateDict(ghost id: NodeId, of: NodeId, c: CollectionConstraints, value: Value)
      returns (r: Option<Value>)
      requires Valid() && id < |schema.nodes| && schema.nodes[id] == Node.Dict(of, c) && of < id
      modifies this
      ensures r == Validate(env, Unfold(schema.nodes, id), path, value).value
      ensures Recorded(old(path), old(trace), Validate(env, Unfold(schema.nodes, id), path, value).issues)
      ensures visits == old(visits) + Visits(schema.nodes, id, value) - 1
      decreases id, 0
    {
      if !value.Dict? {
        RecordTypeMismatch("dict");
        return None;
      }
      var output := ValidateEntries(of, value.entries);
      ApplySizeConstraints(|output|, c.minSize, c.maxSize);
      r := Some(Value.Dict(output));
    }

    /** One field: found and validated, or reported missing when required. */
    method ValidateField(field: StructField, entries: seq<Entry>) returns (r: Option<Value>)
      requires Valid() && field.node < |schema.nodes|
      modifies this
      ensures var ty := FieldExpr(field.name, field.presence, Unfold(schema.nodes, field.node));
              && Some(r) == FieldOutcome(env, ty, old(path), entries).value
              && Recorded(old(path), old(trace), FieldOutcome(env, ty, old(path), entries).issues)
      ensures visits == old(visits) + FieldVisit(schema.nodes, field, entries)
      decreases field.node, 3
    {
      r := None;
      var found := FindInDict(entries, field.name);
      if found.Some? {
        ghost var outcome :=
          Validate(env, Unfold(schema.nodes, field.node), path + [Key(field.name)], found.value);
        r := ValidateBelow(Key(field.name), field.node, found.value, outcome);
      } else if field.presence.Required? {
        path := path + [Key(field.name)];
        PushIssue("required_missing", map[]);
        path := path[..|path| - 1];
      }
    }

    /** Entries that are no field, handled as the policy says. */
    method ValidateExtras(names: seq<string>, extra: ExtraBehavior, entries: seq<Entry>)
      returns (extras: seq<Entry>)
      requires Valid()
      modifies `path, `issues, `trace
      ensures extras == Collect(ExtraOutcomes(names, extra, path, entries)).values
      ensures Recorded(old(path), old(trace), Collect(ExtraOutcomes(names, extra, path, entries)).issues)
    {
      ghost var outcomes := ExtraOutcomes(names, extra, path, entries);
      extras := [];
      for n := 0 to |entries|
        invariant Recorded(old(path), old(trace), CollectFirst(outcomes, n).issues)
        invariant extras == CollectFirst(outcomes, n).values
      {
        var known := FindFieldIndex(names, entries[n].key);
        if known.Some? {
          continue;
        }
        match extra
        case Forbid =>
          path := path + [Key(entries[n].key)];
          PushIssue("extra_key", map["name" := Text(entries[n].key)]);
          path := path[..|path| - 1];
        case Ignore =>
        case Allow =>
          extras := extras + [entries[n]];
      }
    }

    /** The field loop of a struct: one slot per declared field. */
    method ValidateFields(ghost id: NodeId, fields: seq<StructField>, entries: seq<Entry>)
      returns (slots: seq<Option<Value>>)
      requires Valid() && id < |schema.nodes|
      requires schema.nodes[id].Struct? && schema.nodes[id].fields == fields
      requires forall i | 0 <= i < |fields| :: fields[i].node < id
      modifies this
      ensures slots == Collect(FieldOutcomes(env, Unfold(schema.nodes, id), path, entries)).values
      ensures Recorded(old(path), old(trace), Collect(FieldOutcomes(env, Unfold(schema.nodes, id), path, entries)).issues)
      ensures visits == old(visits) + Sum(FieldVisits(schema.nodes, id, entries))
      decreases id, 0, 0
    {
      ghost var ty := Unfold(schema.nodes, id);
      ghost var outcomes := FieldOutcomes(env, ty, path, entries);
      ghost var counts := FieldVisits(schema.nodes, id, entries);
      slots := [];
      for n := 0 to |fields|
        invariant Recorded(old(path), old(trace), CollectFirst(outcomes, n).issues)
        invariant slots == CollectFirst(outcomes, n).values
        invariant visits == old(visits) + SumFirst(counts, n)
      {
        assert fields[n].node < id;
        assert outcomes[n] == FieldOutcome(env, ty.fields[n], path, entries);
        var validated := ValidateField(fields[n], entries);
        slots := slots + [validated];
        CollectStep(old(trace), outcomes, n);
      }
    }

    method CollectNames(fields: seq<StructField>) returns (names: seq<string>)
      ensures |names| == |fields| && forall i | 0 <= i < |fields| :: names[i] == fields[i].name
    {
      names := [];
      for n := 0 to |fields|
        invariant |names| == n && forall i | 0 <= i < n :: names[i] == fields[i].name
      {
        names := names + [fields[n].name];
      }
    }

    method ValidateStruct(ghost id: NodeId, fields: seq<StructField>, extra: ExtraBehavior, value: Value)
      returns (r: Option<Value>)
      requires Valid() && id < |schema.nodes| && schema.nodes[id] == Node.Struct(fields, extra)
      requires forall i | 0 <= i < |fields| :: fields[i].node < id
      modifies this
      ensures r == Validate(env, Unfold(schema.nodes, id), path, value).value
      ensures Recorded(old(path), old(trace), Validate(env, Unfold(schema.nodes, id), path, value).issues)
      ensures visits == old(visits) + Visits(schema.nodes, id, value) - 1
      decreases id, 0
    {
      if !value.Dict? {
        RecordTypeMismatch("struct");
        return None;
      }
      ghost var ty := Unfold(schema.nodes, id);
      var fieldNames := CollectNames(fields);
      assert fieldNames == FieldNames(ty.fields);
      var fieldValues := ValidateFields(id, fields, value.entries);
      var effective := if path == [] then env.extraBehavior else extra;
      var extras := ValidateExtras(fieldNames, effective, value.entries);
      r := Some(Value.Struct(fieldNames, fieldValues, extras));
    }

    method ValidateRoot(value: Value) returns (r: Option<Value>)
      requires Valid()
      modifies this
      ensures r == Validate(env, Unfold(schema.nodes, schema.root), path, value).value
      ensures Recorded(old(path), old(trace), Validate(env, Unfold(schema.nodes, schema.root), path, value).issues)
      ensures NodesNamedApart(schema.nodes) ==> visits <= old(visits) + (schema.root + 1) * Size(value)
    {
      r := ValidateNode(schema.root, value);
      if NodesNamedApart(schema.nodes) {
        VisitsBounded(schema.nodes, schema.root, value);
      }
    }

    /** Issues suppress the output. */
    method Finish(output: Option<Value>) returns (r: ValidationResult)
      requires Valid()
      ensures r == ValidationResult(if trace == [] then output else None, Reports(trace))
    {
      r := ValidationResult(if issues == [] then output else None, issues);
    }
  }

  /** Validation of a converted value against a compiled schema. */
  method ValidateOwned(schema: SchemaIr, value: Value, env: Env) returns (r: ValidationResult)
    requires Layered(schema.nodes) && schema.root < |schema.nodes|
    ensures Means(env, Unfold(schema.nodes, schema.root), value, r)
    ensures var run := Run(env, Unfold(schema.nodes, schema.root), value);
            r == ValidationResult(run.value, Reports(run.issues))
  {
    var validator := new Validator(schema, env);
    var validated := validator.ValidateRoot(value);
    r := validator.Finish(validated);
    RunMeansResult(env, Unfold(schema.nodes, schema.root), value, r);
  }

  /** Compilation preserves meaning: lowering to the shared arena and running
      the engine there gives the result, and the issues in order, that the
      document means on its own. */
  method CompileAndValidate(document: TypeExpr, value: Value, env: Env) returns (r: ValidationResult)
    requires |SubExprs(document)| <= U32_MAX
    ensures Means(env, document, value, r)
    ensures var run := Run(env, document, value);
            r == ValidationResult(run.value, Reports(run.issues))
  {
    var schema := BuildIr(document);
    r := ValidateOwned(schema, value, env);
  }
}
