/** JSON documents as validation input (`validation/value.rs`). */
module JsonInput {
  import opened Wrappers
  import opened Values
  import opened Schema
  import opened Validation
  import opened HashConsing
  import opened Accounts
  import opened Engine
  import opened KeyOrder
  import opened Json

  /** `v` is the document, with object members listed in some order. */
  predicate Represents(toF64: int -> F64, json: Json, v: Value)
    decreases json
  {
    match json
    case JNull => v == Value.Null
    case JBool(b) => v == Value.Bool(b)
    case JNumber(num) =>
      v == (match AsI64(num)
            case Some(i) => Value.Int(i)
            case None => Value.Float(AsF64(toF64, num)))
    case JString(s) => v == Value.String(s)
    case JArray(items) =>
      v.List? && |v.items| == |items| && forall i | 0 <= i < |items| :: Represents(toF64, items[i], v.items[i])
    case JObject(members) =>
      && v.Dict? && Distinct(Keys(v.entries))
      && (forall i | 0 <= i < |v.entries| ::
            v.entries[i].key in members && Represents(toF64, members[v.entries[i].key], v.entries[i].value))
      && forall k | k in members :: k in Keys(v.entries)
  }

  method FromJson(toF64: int -> F64, json: Json) returns (v: Value)
    ensures Represents(toF64, json, v)
    decreases json
  {
    match json
    case JNull => v := Value.Null;
    case JBool(b) => v := Value.Bool(b);
    case JNumber(num) =>
      var i := AsI64(num);
      v := if i.Some? then Value.Int(i.value) else Value.Float(AsF64(toF64, num));
    case JString(s) => v := Value.String(s);
    case JArray(items) =>
      var converted := [];
      for n := 0 to |items|
        invariant |converted| == n && forall i | 0 <= i < n :: Represents(toF64, items[i], converted[i])
      {
        var item := FromJson(toF64, items[n]);
        converted := converted + [item];
      }
      v := Value.List(converted);
    case JObject(members) =>
      var entries := [];
      var rest := members.Keys;
      while rest != {}
        invariant rest <= members.Keys
        invariant Distinct(Keys(entries))
        invariant forall i | 0 <= i < |entries| ::
            && entries[i].key in members - rest
            && Represents(toF64, members[entries[i].key], entries[i].value)
        invariant forall k | k in members && k !in rest :: k in Keys(entries)
        decreases rest
      {
        var key :| key in rest;
        var member := FromJson(toF64, members[key]);
        var more := entries + [Entry(key, member)];
        assert Keys(more) == Keys(entries) + [key];
        assert forall i | 0 <= i < |entries| :: Keys(entries)[i] == entries[i].key;
        entries := more;
        rest := rest - {key};
      }
      v := Value.Dict(entries);
  }

  /** JSON input never contains a struct and never repeats a key. */
  lemma {:induction false} JsonShape(toF64: int -> F64, json: Json, v: Value)
    requires Represents(toF64, json, v)
    ensures StructFree(v) && KeysDistinct(v)
    decreases json
  {
    match json
    case JArray(items) =>
      forall i | 0 <= i < |items| ensures StructFree(v.items[i]) && KeysDistinct(v.items[i]) {
        JsonShape(toF64, items[i], v.items[i]);
      }
    case JObject(members) =>
      forall i | 0 <= i < |v.entries| ensures StructFree(v.entries[i].value) && KeysDistinct(v.entries[i].value) {
        JsonShape(toF64, members[v.entries[i].key], v.entries[i].value);
      }
    case _ =>
  }

  /** Two readings of a document differ only in key order. */
  lemma {:induction false} ReadingsAlike(toF64: int -> F64, json: Json, v: Value, w: Value)
    requires Represents(toF64, json, v) && Represents(toF64, json, w)
    ensures Alike(v, w)
    decreases json
  {
    match json
    case JArray(items) =>
      forall i | 0 <= i < |items| ensures Alike(v.items[i], w.items[i]) {
        ReadingsAlike(toF64, items[i], v.items[i], w.items[i]);
      }
    case JObject(members) =>
      forall i | 0 <= i < |v.entries|
        ensures match DictFind(w.entries, v.entries[i].key)
                case Some(x) => Alike(v.entries[i].value, x)
                case None => false
      {
        var key := v.entries[i].key;
        assert key in Keys(w.entries);
        var j :| 0 <= j < |w.entries| && Keys(w.entries)[j] == key;
        DictFindAt(w.entries, j);
        ReadingsAlike(toF64, members[key], v.entries[i].value, w.entries[j].value);
      }
    case _ =>
  }

  /** In whatever order the members of a document's objects are read, it is
      validated to the same effect. */
  lemma JsonOrderIrrelevant(env: Env, ty: TypeExpr, json: Json, v: Value, w: Value)
    requires Represents(env.runtime.intToF64, json, v) && Represents(env.runtime.intToF64, json, w)
    ensures Agree(Validate(env, ty, [], v), Validate(env, ty, [], w))
  {
    JsonShape(env.runtime.intToF64, json, v);
    JsonShape(env.runtime.intToF64, json, w);
    ReadingsAlike(env.runtime.intToF64, json, v, w);
    OrderIrrelevant(env, ty, [], v, w);
  }

  /** JSON mode. `parsed` is what the JSON text parser returned; text it
      rejects is one issue at the root. */
  method ValidateJson(schema: SchemaIr, parsed: Option<Json>, env: Env) returns (r: ValidationResult)
    requires Layered(schema.nodes) && schema.root < |schema.nodes|
    ensures match parsed
            case None =>
              r == ValidationResult(None, [ValidationIssue("", "format_invalid", map["kind" := Text("json")])])
            case Some(json) =>
              exists v ::
                && Represents(env.runtime.intToF64, json, v)
                && Means(env, Unfold(schema.nodes, schema.root), v, r)
                && var run := Run(env, Unfold(schema.nodes, schema.root), v);
                   r == ValidationResult(run.value, Reports(run.issues))
  {
    match parsed
    case None =>
      r := ValidationResult(None, [ValidationIssue("", "format_invalid", map["kind" := Text("json")])]);
    case Some(json) =>
      var v := FromJson(env.runtime.intToF64, json);
      r := ValidateOwned(schema, v, env);
  }
}
