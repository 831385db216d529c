/** What a successful validation computes, as a relation between input and
    output that runs nothing: no loop, no path, no list of issues. */
module Meaning {
  import opened Wrappers
  import opened Values
  import opened Schema
  import opened Paths
  import opened Validation
  import opened Outcomes
  import opened Acceptance

  predicate SaysTrue(s: string) {
    EqIgnoreAsciiCase(s, "true") || s == "1"
  }

  predicate SaysFalse(s: string) {
    EqIgnoreAsciiCase(s, "false") || s == "0"
  }

  predicate YieldsPrimitive(env: Env, primitive: PrimitiveType, v: Value, out: Value) {
    var text := v.String? && !env.strict;
    match primitive
    case Any => out == v
    case Bool =>
      out.Bool? && (v == out || (text && if out.b then SaysTrue(v.s) else SaysFalse(v.s)))
    case Int(c) =>
      && out.Int? && IntFits(out.i, c)
      && (v == out || (text && env.runtime.parseI64(env.runtime.trim(v.s)) == Some(out.i)))
    case Float(c) =>
      && out.Float? && FloatFits(out.f, c)
      && (|| v == out
          || (v.Int? && env.runtime.intToF64(v.i) == out.f)
          || (text && env.runtime.parseF64(env.runtime.trim(v.s)) == Some(out.f)))
    case String(c) => v.String? && out == v && StringFits(v.s, c)
    case Symbol => out.Symbol? && (v == out || (text && v.s == out.name))
  }

  /** The entries under names that are not declared, in order. */
  function Undeclared(names: seq<string>, entries: seq<Entry>): seq<Entry> {
    if entries == [] then []
    else
      var last := entries[|entries| - 1];
      Undeclared(names, entries[..|entries| - 1]) + if last.key in names then [] else [last]
  }

  predicate YieldsExtras(extra: ExtraBehavior, names: seq<string>, entries: seq<Entry>, extras: seq<Entry>) {
    match extra
    case Forbid => Undeclared(names, entries) == [] && extras == []
    case Ignore => extras == []
    case Allow => extras == Undeclared(names, entries)
  }

  /** A field takes the first entry under its name. */
  predicate YieldsSlot(env: Env, field: FieldExpr, entries: seq<Entry>, slot: Option<Value>)
    decreases field
  {
    match DictFind(entries, field.name)
    case Some(x) => slot.Some? && Yields(env, field.ty, false, x, slot.value)
    case None => slot.None? && field.presence.Optional?
  }

  /** `out` is what the schema makes of `v`. */
  predicate Yields(env: Env, ty: TypeExpr, root: bool, v: Value, out: Value)
    decreases ty
  {
    match ty
    case Primitive(primitive) => YieldsPrimitive(env, primitive, v, out)
    case Enum(variants) =>
      && out.Symbol? && out.name in variants
      && (v == out || (v.String? && !env.strict && v.s == out.name))
    case Optional(of) => if v.Null? then out == v else Yields(env, of, root, v, out)
    case List(of, c) =>
      && v.List? && out.List? && |out.items| == |v.items|
      && SizeFits(|v.items|, c.minSize, c.maxSize)
      && forall i | 0 <= i < |v.items| :: Yields(env, of, false, v.items[i], out.items[i])
    case Dict(of, c) =>
      && v.Dict? && out.Dict? && |out.entries| == |v.entries|
      && SizeFits(|v.entries|, c.minSize, c.maxSize)
      && forall i | 0 <= i < |v.entries| ::
           && out.entries[i].key == v.entries[i].key
           && Yields(env, of, false, v.entries[i].value, out.entries[i].value)
    case Struct(fields, extra) =>
      && v.Dict? && out.Struct? && out.names == FieldNames(fields) && |out.fields| == |fields|
      && (forall i | 0 <= i < |fields| ::
            YieldsSlot(env, fields[i], v.entries, out.fields[i]))
      && YieldsExtras(if root then env.extraBehavior else extra, out.names, v.entries, out.extras)
  }

  /** Where no part fails silently, collecting is clean with these values
      exactly when each part accepts its own. */
  lemma CollectAll<T>(outcomes: seq<Outcome<T>>, values: seq<T>)
    requires forall i | 0 <= i < |outcomes| :: outcomes[i].issues == [] ==> outcomes[i].value.Some?
    ensures Collect(outcomes) == Collected(values, [])
       <==> |values| == |outcomes| && forall i | 0 <= i < |values| :: outcomes[i] == Accept(values[i])
  {
    if Collect(outcomes) == Collected(values, []) {
      CollectClean(outcomes);
      CleanKeepsAll(outcomes);
      CollectCount(outcomes);
    }
    assert values[..|values|] == values;
    if |values| == |outcomes| && forall i | 0 <= i < |values| :: outcomes[i] == Accept(values[i]) {
      CollectAccepted(outcomes, values, |values|);
    }
  }

  lemma {:induction false} ExtrasKept(names: seq<string>, extra: ExtraBehavior, path: Path,
                                      entries: seq<Entry>, n: nat)
    requires n <= |entries|
    ensures CollectFirst(ExtraOutcomes(names, extra, path, entries), n).values
         == if extra.Allow? then Undeclared(names, entries[..n]) else []
  {
    if n > 0 {
      ExtrasKept(names, extra, path, entries, n - 1);
      assert entries[..n][..n - 1] == entries[..n - 1];
      assert ExtraOutcomes(names, extra, path, entries)[n - 1] == ExtraOutcome(names, extra, path, entries[n - 1]);
    }
  }

  lemma {:induction false} UndeclaredEmpty(names: seq<string>, entries: seq<Entry>, n: nat)
    requires n <= |entries|
    ensures Undeclared(names, entries[..n]) == [] <==> forall k | 0 <= k < n :: entries[k].key in names
  {
    if n > 0 {
      UndeclaredEmpty(names, entries, n - 1);
      assert entries[..n][..n - 1] == entries[..n - 1];
    }
  }

  lemma ExtrasYield(names: seq<string>, extra: ExtraBehavior, path: Path, entries: seq<Entry>, extras: seq<Entry>)
    ensures Collect(ExtraOutcomes(names, extra, path, entries)) == Collected(extras, [])
       <==> YieldsExtras(extra, names, entries, extras)
  {
    ExtrasKept(names, extra, path, entries, |entries|);
    UndeclaredEmpty(names, entries, |entries|);
    ExtrasExact(names, extra, path, entries);
    assert entries[..|entries|] == entries;
  }

  lemma PrimitiveYields(env: Env, primitive: PrimitiveType, path: Path, v: Value, out: Value)
    ensures ValidatePrimitive(env, primitive, path, v) == Accept(out) <==> YieldsPrimitive(env, primitive, v, out)
  {
    match primitive
    case Bool => BoolYields(env, path, v, out);
    case Int(c) => IntYields(env, c, path, v, out);
    case Float(c) => FloatYields(env, c, path, v, out);
    case String(c) =>
      if v.String? {
        SizesExact(path, |v.s|, c.minSize, c.maxSize);
      }
    case _ =>
  }

  lemma BoolYields(env: Env, path: Path, v: Value, out: Value)
    ensures ValidatePrimitive(env, PrimitiveType.Bool, path, v) == Accept(out)
       <==> YieldsPrimitive(env, PrimitiveType.Bool, v, out)
  {
    assert |"true"| != |"false"| && "1" != "0";
  }

  lemma IntYields(env: Env, c: IntConstraints, path: Path, v: Value, out: Value)
    ensures ValidatePrimitive(env, PrimitiveType.Int(c), path, v) == Accept(out)
       <==> YieldsPrimitive(env, PrimitiveType.Int(c), v, out)
  {
  }

  lemma FloatYields(env: Env, c: FloatConstraints, path: Path, v: Value, out: Value)
    ensures ValidatePrimitive(env, PrimitiveType.Float(c), path, v) == Accept(out)
       <==> YieldsPrimitive(env, PrimitiveType.Float(c), v, out)
  {
  }

  lemma {:induction false} ItemsYield(env: Env, of: TypeExpr, path: Path, items: seq<Value>, out: seq<Value>)
    ensures Collect(ItemOutcomes(env, of, path, items)) == Collected(out, [])
       <==> |out| == |items| && forall i | 0 <= i < |items| :: Yields(env, of, false, items[i], out[i])
    decreases of, 5
  {
    var outcomes := ItemOutcomes(env, of, path, items);
    forall i | 0 <= i < |items| ensures outcomes[i].issues == [] ==> outcomes[i].value.Some? {
      assert outcomes[i] == ItemOutcome(env, of, path, i, items[i]);
      NoSilentFailure(env, of, path + [Index(i)], items[i]);
    }
    CollectAll(outcomes, out);
    if |out| == |items| {
      forall i | 0 <= i < |items| ensures outcomes[i] == Accept(out[i]) <==> Yields(env, of, false, items[i], out[i]) {
        assert outcomes[i] == ItemOutcome(env, of, path, i, items[i]);
        ValidationMeans(env, of, path + [Index(i)], items[i], out[i]);
      }
    }
  }

  lemma {:induction false} EntriesYield(env: Env, of: TypeExpr, path: Path, entries: seq<Entry>, out: seq<Entry>)
    ensures Collect(EntryOutcomes(env, of, path, entries)) == Collected(out, [])
       <==> |out| == |entries| && forall i | 0 <= i < |entries| ::
              out[i].key == entries[i].key && Yields(env, of, false, entries[i].value, out[i].value)
    decreases of, 5
  {
    var outcomes := EntryOutcomes(env, of, path, entries);
    forall i | 0 <= i < |entries| ensures outcomes[i].issues == [] ==> outcomes[i].value.Some? {
      assert outcomes[i] == EntryOutcome(env, of, path, entries[i]);
      NoSilentFailure(env, of, path + [Key(entries[i].key)], entries[i].value);
    }
    CollectAll(outcomes, out);
    if |out| == |entries| {
      forall i | 0 <= i < |entries|
        ensures outcomes[i] == Accept(out[i])
           <==> out[i].key == entries[i].key && Yields(env, of, false, entries[i].value, out[i].value)
      {
        assert outcomes[i] == EntryOutcome(env, of, path, entries[i]);
        ValidationMeans(env, of, path + [Key(entries[i].key)], entries[i].value, out[i].value);
      }
    }
  }

  lemma {:induction false} SlotYields(env: Env, field: FieldExpr, path: Path, entries: seq<Entry>, slot: Option<Value>)
    ensures FieldOutcome(env, field, path, entries) == Accept(slot) <==> YieldsSlot(env, field, entries, slot)
    decreases field
  {
    if DictFind(entries, field.name).Some? {
      var x := DictFind(entries, field.name).value;
      NoSilentFailure(env, field.ty, path + [Key(field.name)], x);
      if slot.Some? {
        ValidationMeans(env, field.ty, path + [Key(field.name)], x, slot.value);
      }
    }
  }

  lemma {:induction false} FieldsYield(env: Env, ty: TypeExpr, path: Path, entries: seq<Entry>,
                                       slots: seq<Option<Value>>)
    requires ty.Struct?
    ensures Collect(FieldOutcomes(env, ty, path, entries)) == Collected(slots, [])
       <==> |slots| == |ty.fields| && forall i | 0 <= i < |slots| :: YieldsSlot(env, ty.fields[i], entries, slots[i])
    decreases ty, 1
  {
    var outcomes := FieldOutcomes(env, ty, path, entries);
    forall i | 0 <= i < |ty.fields| ensures outcomes[i].value.Some? {
      assert outcomes[i] == FieldOutcome(env, ty.fields[i], path, entries);
    }
    CollectAll(outcomes, slots);
    if |slots| == |ty.fields| {
      forall i | 0 <= i < |slots|
        ensures outcomes[i] == Accept(slots[i]) <==> YieldsSlot(env, ty.fields[i], entries, slots[i])
      {
        assert outcomes[i] == FieldOutcome(env, ty.fields[i], path, entries);
        SlotYields(env, ty.fields[i], path, entries, slots[i]);
      }
    }
  }

  lemma {:induction false} StructMeans(env: Env, ty: TypeExpr, path: Path, v: Value, out: Value)
    requires ty.Struct?
    ensures Validate(env, ty, path, v) == Accept(out) <==> Yields(env, ty, path == [], v, out)
    decreases ty, 2
  {
    if v.Dict? && out.Struct? {
      FieldsYield(env, ty, path, v.entries, out.fields);
      ExtrasYield(FieldNames(ty.fields), EffectiveExtra(env, ty.extra, path), path, v.entries, out.extras);
    }
  }

  /** Validation accepts an input with an output exactly when the schema
      relates the two. */
  lemma {:induction false} ValidationMeans(env: Env, ty: TypeExpr, path: Path, v: Value, out: Value)
    ensures Validate(env, ty, path, v) == Accept(out) <==> Yields(env, ty, path == [], v, out)
    decreases ty, 3
  {
    match ty
    case Primitive(primitive) => PrimitiveYields(env, primitive, path, v, out);
    case Enum(_) =>
    case Optional(of) =>
      if !v.Null? {
        ValidationMeans(env, of, path, v, out);
      }
    case List(of, c) =>
      if v.List? && out.List? {
        ItemsYield(env, of, path, v.items, out.items);
        SizesExact(path, |out.items|, c.minSize, c.maxSize);
      }
    case Dict(of, c) =>
      if v.Dict? && out.Dict? {
        EntriesYield(env, of, path, v.entries, out.entries);
        SizesExact(path, |out.entries|, c.minSize, c.maxSize);
      }
    case Struct(_, _) => StructMeans(env, ty, path, v, out);
  }

  /** A run succeeds with the related output, and with no other. */
  lemma RunMeans(env: Env, ty: TypeExpr, v: Value, out: Value)
    ensures Run(env, ty, v).value == Some(out) <==> Yields(env, ty, true, v, out)
  {
    ValidationMeans(env, ty, [], v, out);
  }
}
