/** Outputs are normal forms: written back as input, a conforming output passes
    strict validation against the same schema and comes out unchanged. */
module NormalForms {
  import opened Wrappers
  import opened Values
  import opened Schema
  import opened Paths
  import opened Validation
  import opened Outcomes
  import opened Acceptance
  import opened Conformance

  /** Entries for those of the first `n` fields that are present, in order. */
  function Present(names: seq<string>, fields: seq<Option<Value>>, n: nat): seq<Entry>
    requires n <= |names| && n <= |fields|
  {
    if n == 0 then []
    else
      match fields[n - 1]
      case Some(x) => Present(names, fields, n - 1) + [Entry(names[n - 1], x)]
      case None => Present(names, fields, n - 1)
  }

  function Shorter(a: nat, b: nat): nat {
    if a <= b then a else b
  }

  /** The struct-free value a typed output reads as: structs become dicts of
      their present fields followed by their extras. */
  function Lower(v: Value): Value {
    match v
    case List(items) => Value.List(seq(|items|, i requires 0 <= i < |items| => Lower(items[i])))
    case Dict(entries) => Value.Dict(LowerEntries(entries))
    case Struct(names, fields, extras) =>
      Value.Dict(Present(names, LowerFields(fields), Shorter(|names|, |fields|)) + LowerEntries(extras))
    case _ => v
  }

  function LowerEntries(entries: seq<Entry>): seq<Entry> {
    seq(|entries|, i requires 0 <= i < |entries| => Entry(entries[i].key, Lower(entries[i].value)))
  }

  function LowerFields(fields: seq<Option<Value>>): seq<Option<Value>> {
    seq(|fields|, i requires 0 <= i < |fields| => LowerSlot(fields[i]))
  }

  function LowerSlot(slot: Option<Value>): Option<Value> {
    match slot
    case Some(x) => Some(Lower(x))
    case None => None
  }

  lemma {:induction false} LowerStructFree(v: Value)
    requires StructFree(v)
    ensures Lower(v) == v
  {
    match v
    case List(items) =>
      forall i | 0 <= i < |items| ensures Lower(items[i]) == items[i] {
        LowerStructFree(items[i]);
      }
      assert Lower(v).items == items;
    case Dict(entries) => LowerEntriesStructFree(entries);
    case _ =>
  }

  lemma {:induction false} LowerEntriesStructFree(entries: seq<Entry>)
    requires forall i | 0 <= i < |entries| :: StructFree(entries[i].value)
    ensures LowerEntries(entries) == entries
  {
    forall i | 0 <= i < |entries| ensures Lower(entries[i].value) == entries[i].value {
      LowerStructFree(entries[i].value);
    }
    assert LowerEntries(entries) == entries;
  }

  lemma {:induction false} FindPresent(names: seq<string>, fields: seq<Option<Value>>, n: nat, i: nat)
    requires Distinct(names) && |names| == |fields| && n <= |names| && i < |names|
    ensures DictFind(Present(names, fields, n), names[i]) == if i < n then fields[i] else None
  {
    if n > 0 {
      FindPresent(names, fields, n - 1, i);
      if fields[n - 1].Some? {
        var front, last := Present(names, fields, n - 1), Entry(names[n - 1], fields[n - 1].value);
        FindAppend(front, [last], names[i]);
        assert names[i] == names[n - 1] ==> i == n - 1;
      }
    }
  }

  lemma {:induction false} PresentKeys(names: seq<string>, fields: seq<Option<Value>>, n: nat)
    requires n <= |names| && n <= |fields|
    ensures forall k | 0 <= k < |Present(names, fields, n)| :: Present(names, fields, n)[k].key in names
  {
    if n > 0 {
      PresentKeys(names, fields, n - 1);
    }
  }

  /** Looking a declared name up in a lowered struct finds that field's slot. */
  lemma FindLowered(names: seq<string>, fields: seq<Option<Value>>, extras: seq<Entry>, i: nat)
    requires Distinct(names) && |names| == |fields| && i < |names|
    requires forall k | 0 <= k < |extras| :: extras[k].key !in names
    ensures DictFind(Present(names, LowerFields(fields), |names|) + extras, names[i]) == LowerSlot(fields[i])
  {
    FindAppend(Present(names, LowerFields(fields), |names|), extras, names[i]);
    FindPresent(names, LowerFields(fields), |names|, i);
    DictFindAbsent(extras, names[i]);
  }

  /** Declared keys are no extras; undeclared ones are kept under Allow. */
  lemma {:induction false} ExtrasKept(names: seq<string>, extra: ExtraBehavior, path: Path,
                                      declared: seq<Entry>, extras: seq<Entry>, n: nat)
    requires n <= |declared| + |extras|
    requires forall k | 0 <= k < |declared| :: declared[k].key in names
    requires forall k | 0 <= k < |extras| :: extras[k].key !in names
    requires extras != [] ==> extra.Allow?
    ensures CollectFirst(ExtraOutcomes(names, extra, path, declared + extras), n)
         == Collected(extras[..if n <= |declared| then 0 else n - |declared|], [])
  {
    if n > 0 {
      ExtrasKept(names, extra, path, declared, extras, n - 1);
      var e := (declared + extras)[n - 1];
      assert ExtraOutcomes(names, extra, path, declared + extras)[n - 1] == ExtraOutcome(names, extra, path, e);
      if n > |declared| {
        var m := n - |declared|;
        assert e == extras[m - 1];
        assert extras[..m] == extras[..m - 1] + [extras[m - 1]];
      }
    }
  }

  lemma {:induction false} FieldsReread(env: Env, ty: TypeExpr, path: Path, entries: seq<Entry>,
                                        slots: seq<Option<Value>>)
    requires ty.Struct? && |slots| == |ty.fields|
    requires forall i | 0 <= i < |slots| :: DictFind(entries, ty.fields[i].name) == LowerSlot(slots[i])
    requires forall i | 0 <= i < |slots| ::
               match slots[i]
               case Some(x) => Conforms(env.extraBehavior, ty.fields[i].ty, false, x) && KeysDistinct(x)
               case None => ty.fields[i].presence.Optional?
    ensures Collect(FieldOutcomes(env.(strict := true), ty, path, entries)) == Collected(slots, [])
    decreases ty, 1
  {
    var outcomes := FieldOutcomes(env.(strict := true), ty, path, entries);
    forall i | 0 <= i < |slots| ensures outcomes[i] == Accept(slots[i]) {
      var field := ty.fields[i];
      assert outcomes[i] == FieldOutcome(env.(strict := true), field, path, entries);
      match slots[i]
      case Some(x) => OutputIsNormal(env, field.ty, path + [Key(field.name)], x);
      case None =>
    }
    CollectAccepted(outcomes, slots, |slots|);
    assert slots[..|slots|] == slots;
  }

  /** What a lowered struct looks like to a lookup. */
  lemma LoweredStruct(out: Value) returns (declared: seq<Entry>)
    requires out.Struct? && |out.names| == |out.fields| && Distinct(out.names)
    requires forall k | 0 <= k < |out.extras| :: out.extras[k].key !in out.names && StructFree(out.extras[k].value)
    ensures Lower(out) == Value.Dict(declared + out.extras)
    ensures forall k | 0 <= k < |declared| :: declared[k].key in out.names
    ensures forall i | 0 <= i < |out.names| ::
              DictFind(declared + out.extras, out.names[i]) == LowerSlot(out.fields[i])
  {
    declared := Present(out.names, LowerFields(out.fields), |out.names|);
    LowerEntriesStructFree(out.extras);
    PresentKeys(out.names, LowerFields(out.fields), |out.names|);
    forall i | 0 <= i < |out.names|
      ensures DictFind(declared + out.extras, out.names[i]) == LowerSlot(out.fields[i])
    {
      FindLowered(out.names, out.fields, out.extras, i);
    }
  }

  lemma ExtrasReread(names: seq<string>, extra: ExtraBehavior, path: Path, declared: seq<Entry>, extras: seq<Entry>)
    requires forall k | 0 <= k < |declared| :: declared[k].key in names
    requires forall k | 0 <= k < |extras| :: extras[k].key !in names
    requires extras != [] ==> extra.Allow?
    ensures Collect(ExtraOutcomes(names, extra, path, declared + extras)) == Collected(extras, [])
  {
    var n := |declared| + |extras|;
    ExtrasKept(names, extra, path, declared, extras, n);
    assert extras[..if n <= |declared| then 0 else n - |declared|] == extras;
    assert |ExtraOutcomes(names, extra, path, declared + extras)| == n;
  }

  lemma {:induction false} StructReread(env: Env, ty: TypeExpr, path: Path, out: Value)
    requires ty.Struct? && Conforms(env.extraBehavior, ty, path == [], out) && KeysDistinct(out)
    ensures Validate(env.(strict := true), ty, path, Lower(out)) == Accept(out)
    decreases ty, 2
  {
    var declared := LoweredStruct(out);
    var entries := declared + out.extras;
    forall i | 0 <= i < |out.fields| ensures DictFind(entries, ty.fields[i].name) == LowerSlot(out.fields[i]) {
      assert ty.fields[i].name == out.names[i];
    }
    FieldsReread(env, ty, path, entries, out.fields);
    ExtrasReread(out.names, EffectiveExtra(env, ty.extra, path), path, declared, out.extras);
  }

  /** Every conforming output with distinct keys is a fixed point of strict
      validation. */
  lemma {:induction false} OutputIsNormal(env: Env, ty: TypeExpr, path: Path, out: Value)
    requires Conforms(env.extraBehavior, ty, path == [], out) && KeysDistinct(out)
    ensures Validate(env.(strict := true), ty, path, Lower(out)) == Accept(out)
    decreases ty, 3
  {
    var strict := env.(strict := true);
    match ty
    case Primitive(primitive) => PrimitiveReread(env, primitive, path, out);
    case Enum(_) =>
    case Optional(of) =>
      if !out.Null? {
        OutputIsNormal(env, of, path, out);
      }
    case List(of, c) => ListReread(env, ty, path, out);
    case Dict(of, c) => DictReread(env, ty, path, out);
    case Struct(_, _) => StructReread(env, ty, path, out);
  }

  lemma PrimitiveReread(env: Env, primitive: PrimitiveType, path: Path, out: Value)
    requires ConformsPrimitive(primitive, out)
    ensures ValidatePrimitive(env.(strict := true), primitive, path, Lower(out)) == Accept(out)
  {
    PrimitiveExact(env.(strict := true), primitive, path, Lower(out));
    if primitive.Any? {
      LowerStructFree(out);
    }
  }

  lemma {:induction false} ListReread(env: Env, ty: TypeExpr, path: Path, out: Value)
    requires ty.List? && Conforms(env.extraBehavior, ty, path == [], out) && KeysDistinct(out)
    ensures Validate(env.(strict := true), ty, path, Lower(out)) == Accept(out)
    decreases ty, 2
  {
    var items := Lower(out).items;
    var outcomes := ItemOutcomes(env.(strict := true), ty.of, path, items);
    forall i | 0 <= i < |out.items| ensures outcomes[i] == Accept(out.items[i]) {
      assert outcomes[i] == ItemOutcome(env.(strict := true), ty.of, path, i, items[i]);
      OutputIsNormal(env, ty.of, path + [Index(i)], out.items[i]);
    }
    CollectAccepted(outcomes, out.items, |out.items|);
    assert out.items[..|out.items|] == out.items;
    SizesExact(path, |out.items|, ty.constraints.minSize, ty.constraints.maxSize);
  }

  lemma {:induction false} DictReread(env: Env, ty: TypeExpr, path: Path, out: Value)
    requires ty.Dict? && Conforms(env.extraBehavior, ty, path == [], out) && KeysDistinct(out)
    ensures Validate(env.(strict := true), ty, path, Lower(out)) == Accept(out)
    decreases ty, 2
  {
    var entries := LowerEntries(out.entries);
    var outcomes := EntryOutcomes(env.(strict := true), ty.value, path, entries);
    forall i | 0 <= i < |out.entries| ensures outcomes[i] == Accept(out.entries[i]) {
      assert outcomes[i] == EntryOutcome(env.(strict := true), ty.value, path, entries[i]);
      OutputIsNormal(env, ty.value, path + [Key(out.entries[i].key)], out.entries[i].value);
    }
    CollectAccepted(outcomes, out.entries, |out.entries|);
    assert out.entries[..|out.entries|] == out.entries;
    SizesExact(path, |out.entries|, ty.constraints.minSize, ty.constraints.maxSize);
  }

  /** Validation is idempotent up to strictness: what either mode produced,
      strict validation reproduces. */
  lemma RevalidateStrictly(env: Env, ty: TypeExpr, path: Path, v: Value)
    requires StructFree(v) && KeysDistinct(v) && NamesDistinct(ty)
    requires Validate(env, ty, path, v).issues == []
    ensures Validate(env, ty, path, v).value.Some?
    ensures Validate(env.(strict := true), ty, path, Lower(Validate(env, ty, path, v).value.value))
         == Validate(env, ty, path, v)
  {
    SuccessConforms(env, ty, path, v);
    OutputsStayDistinct(env, ty, path, v);
    OutputIsNormal(env, ty, path, Validate(env, ty, path, v).value.value);
  }
}
