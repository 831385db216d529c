/** The object that `build` hands out, read off the heap: which instance
    variables it has, and which of them hold their field's own value. */
module BuiltObjects {
  import opened Wrappers
  import opened Values
  import opened Schema
  import opened Paths
  import opened Validation
  import opened Meaning
  import opened Ruby
  import opened RubyInput
  import opened InputFaults
  import opened Materialize
  import opened RubyHeap
  import opened Instances
  import opened Pipeline

  /** The type under a chain of optionals. */
  function Core(ty: TypeExpr): TypeExpr {
    if ty.Optional? then Core(ty.of) else ty
  }

  /** The input has something under this name. */
  predicate Given(v: Value, name: string) {
    v.Dict? && DictFind(v.entries, name).Some?
  }

  /** Only a struct yields a struct. */
  lemma {:induction false} CoreYields(env: Env, ty: TypeExpr, v: Value, out: Value)
    requires Yields(env, ty, true, v, out) && out.Struct? && StructFree(v)
    ensures Core(ty).Struct? && Yields(env, Core(ty), true, v, out)
  {
    if ty.Optional? {
      CoreYields(env, ty.of, v, out);
    }
  }

  /** The output of a successful build, in terms of its input. */
  lemma OutputOfBuild(env: Env, document: TypeExpr, input: RValue, store: bool, instance: Instance)
    requires BuildSpec(env, document, PlanOf(document), input, store) == Success(instance)
    ensures var v, out, core := Convert(input, []).value, Output(env, document, input), Core(document);
            && v.Dict? && core.Struct? && out.Struct? && out.names == FieldNames(core.fields)
            && |out.fields| == |out.names|
            && (forall i | 0 <= i < |out.names| :: out.fields[i].Some? <==> Given(v, out.names[i]))
            && out.extras == if env.extraBehavior.Allow? then Undeclared(out.names, v.entries) else []
  {
    var v, out := Convert(input, []).value, Output(env, document, input);
    ConvertedShape(input, []);
    RunMeans(env, document, v, out);
    CoreYields(env, document, v, out);
    var fields := Core(document).fields;
    forall i | 0 <= i < |fields| ensures out.fields[i].Some? <==> Given(v, out.names[i]) {
      assert YieldsSlot(env, fields[i], v.entries, out.fields[i]);
    }
  }

  /** The variable of this name holds this value. */
  ghost predicate VariableHolds(objs: seq<Obj>, a: nat, name: string, v: Value) {
    && Ordered(objs) && a < |objs| && objs[a].body.InstanceBody?
    && BodyAbove(objs[a].body, a, |objs|)
    && name in objs[a].body.ivars
    && ToRuby(v) == Success(ReadBack(objs, objs[a].body.ivars[name]))
  }

  ghost function GivenVariables(names: seq<string>, v: Value): set<string> {
    set i | 0 <= i < |names| && Given(v, names[i]) :: "@" + names[i]
  }

  /** Exactly the fields given become variables if the root is itself a struct,
      and none does otherwise; the attributes variable is there when asked for. */
  lemma VariablesOfBuild(env: Env, document: TypeExpr, input: RValue, store: bool, instance: Instance,
                         objs: seq<Obj>, a: nat)
    requires BuildSpec(env, document, PlanOf(document), input, store) == Success(instance)
    requires Core(document).Struct? && Distinct(FieldNames(Core(document).fields))
    requires Holds(objs, a, instance, store)
    ensures objs[a].body.ivars.Keys
         == (if document.Struct?
             then GivenVariables(FieldNames(document.fields), Convert(input, []).value)
             else {})
          + (if store then {"@attributes"} else {})
  {
    OutputOfBuild(env, document, input, store, instance);
    if document.Struct? {
      StructBuildSetsFields(env, document, input, store, instance);
      var v, out := Convert(input, []).value, Output(env, document, input);
      assert PresentIvars(out, |out.names|) == GivenVariables(out.names, v);
    } else {
      assert instance.ivars == map[];
    }
  }

  lemma {:induction false} LastPutAppend(puts: seq<RPair>, more: seq<RPair>, n: nat, key: RValue)
    requires n <= |more| && forall i | 0 <= i < |more| :: more[i].key != key
    ensures LastPut(puts + more, |puts| + n, key) == LastPut(puts, |puts|, key)
  {
    if n == 0 {
      LastPutPrefix(puts, more, |puts|, key);
    } else {
      LastPutAppend(puts, more, n - 1, key);
      assert (puts + more)[|puts| + n - 1] == more[n - 1];
    }
  }

  lemma {:induction false} LastPutPrefix(puts: seq<RPair>, more: seq<RPair>, n: nat, key: RValue)
    requires n <= |puts|
    ensures LastPut(puts + more, n, key) == LastPut(puts, n, key)
  {
    if n > 0 {
      LastPutPrefix(puts, more, n - 1, key);
    }
  }

  /** Of the stores for planned fields, the last under a field's name is its own. */
  lemma {:induction false} FieldIsLast(root: Value, slots: seq<Option<RPair>>, n: nat, i: nat)
    requires root.Struct? && |root.names| == |root.fields| == |slots| && Distinct(root.names)
    requires forall k | 0 <= k < |slots| :: PlanPut(root.names, root.fields, root.names[k]) == Success(slots[k])
    requires i < n <= |slots| && root.fields[i].Some?
    ensures var puts := Somes(slots, n);
            var kept := LastPut(puts, |puts|, RSymbol(root.names[i]));
            kept.Some? && ToRuby(root.fields[i].value) == Success(kept.value)
    decreases n
  {
    var last := n - 1;
    assert PlanPut(root.names, root.fields, root.names[last]) == Success(slots[last]);
    PlanFindsOwn(root, last, slots[last]);
    LastIndexDistinct(root.names, last);
    var front := Somes(slots, last);
    if i < last {
      FieldIsLast(root, slots, last, i);
      assert root.names[i] != root.names[last];
      if slots[last].Some? {
        LastPutAppend(front, [slots[last].value], 1, RSymbol(root.names[i]));
      }
    }
  }

  /** A hash is none of its own parts. */
  lemma PartIsSmaller(pairs: seq<RPair>, key: RValue)
    requires HashGet(pairs, key).Some?
    ensures HashGet(pairs, key).value != RHash(pairs)
  {
    var k := PartAt(pairs, key);
    assert pairs[k].value != RHash(pairs);
  }

  lemma {:induction false} PartAt(pairs: seq<RPair>, key: RValue) returns (k: nat)
    requires HashGet(pairs, key).Some?
    ensures k < |pairs| && pairs[k].value == HashGet(pairs, key).value
  {
    if pairs[0].key == key {
      k := 0;
    } else {
      k := PartAt(pairs[1..], key);
      k := k + 1;
    }
  }

  /** Extras go under strings, so no store of theirs is a field's. */
  lemma {:induction false} ExtrasUnderStrings(extras: seq<Entry>, steps: seq<RPair>, name: string)
    requires Gather(ExtraSteps(extras, true), |extras|) == Success(steps)
    ensures forall k | 0 <= k < |steps| :: steps[k].key != RSymbol(name)
  {
    GatherSuccess(ExtraSteps(extras, true), |extras|);
    forall k | 0 <= k < |steps| ensures steps[k].key != RSymbol(name) {
      assert ExtraSteps(extras, true)[k] == ExtraStep(extras[k], true);
    }
  }

  /** Of all the stores, the last under a present field's name is its own. */
  lemma {:induction false} FieldIsStored(root: Value, instance: Instance, i: nat)
    requires root.Struct? && |root.names| == |root.fields| && Distinct(root.names)
    requires InstanceOf(root.names, root, true) == Success(instance)
    requires i < |root.names| && root.fields[i].Some?
    ensures var kept := LastPut(instance.stored, |instance.stored|, RSymbol(root.names[i]));
            kept.Some? && ToRuby(root.fields[i].value) == Success(kept.value)
  {
    var planned, extras := PlanPuts(root.names, root.names, root.fields), ExtraSteps(root.extras, true);
    GatherSuccess(planned, |root.names|);
    var slots, steps := Gather(planned, |root.names|).value, Gather(extras, |root.extras|).value;
    forall k | 0 <= k < |slots| ensures PlanPut(root.names, root.fields, root.names[k]) == Success(slots[k]) {
      assert planned[k] == PlanPut(root.names, root.fields, root.names[k]);
    }
    ExtrasUnderStrings(root.extras, steps, root.names[i]);
    FieldIsLast(root, slots, |slots|, i);
    LastPutAppend(Somes(slots, |slots|), steps, |steps|, RSymbol(root.names[i]));
  }

  /** The attributes hash contains every field that is present, so it is none
      of them. */
  lemma {:induction false} NoFieldIsTheHash(root: Value, instance: Instance, i: nat)
    requires root.Struct? && |root.names| == |root.fields| && Distinct(root.names)
    requires InstanceOf(root.names, root, true) == Success(instance)
    requires i < |root.names| && root.fields[i].Some?
    ensures ToRuby(root.fields[i].value) != Success(HashOf(instance.stored))
  {
    FieldIsStored(root, instance, i);
    HashHoldsLast(instance.stored, |instance.stored|);
    PartIsSmaller(PutAll([], instance.stored, |instance.stored|), RSymbol(root.names[i]));
  }

  lemma AtNames(name: string)
    ensures "@" + name == "@attributes" <==> name == "attributes"
  {
    assert ("@" + name)[1..] == name && "@attributes"[1..] == "attributes";
  }

  /** With the schema's own plan, a field that is present has its own value in
      its variable unless the attributes took that. */
  lemma PlannedVariable(root: Value, store: bool, instance: Instance, objs: seq<Obj>, a: nat, i: nat)
    requires root.Struct? && |root.names| == |root.fields| && Distinct(root.names)
    requires InstanceOf(root.names, root, store) == Success(instance)
    requires HoldsFields(instance.ivars, root, |root.names|) && Holds(objs, a, instance, store)
    requires i < |root.names| && root.fields[i].Some?
    ensures VariableHolds(objs, a, "@" + root.names[i], root.fields[i].value)
       <==> !(store && root.names[i] == "attributes")
  {
    AtNames(root.names[i]);
    if store && root.names[i] == "attributes" {
      NoFieldIsTheHash(root, instance, i);
    }
  }

  /** Without a plan, only the attributes variable is there. */
  lemma UnplannedVariable(root: Value, store: bool, instance: Instance, objs: seq<Obj>, a: nat, i: nat)
    requires root.Struct? && |root.names| == |root.fields|
    requires InstanceOf([], root, store) == Success(instance) && Holds(objs, a, instance, store)
    requires i < |root.names| && root.fields[i].Some?
    ensures VariableHolds(objs, a, "@" + root.names[i], root.fields[i].value)
       <==> && store && root.names[i] == "attributes"
            && ToRuby(root.fields[i].value) == ToRuby(Value.Struct([], [], root.extras))
  {
    AtNames(root.names[i]);
    assert Somes<RPair>([], 0) == [] && Ivars([], 0) == map[];
    assert instance.ivars == map[];
    if store {
      assert ExtraSteps(root.extras, true) == ExtraPuts(root.extras);
      assert FieldPuts([], []) == [];
      assert ToRuby(Value.Struct([], [], root.extras)) == Success(HashOf(instance.stored));
    }
  }

  /** Every field given has a variable, and there its own value. */
  ghost predicate FieldsHold(objs: seq<Obj>, a: nat, v: Value, out: Value) {
    && out.Struct? && |out.names| == |out.fields|
    && forall i | 0 <= i < |out.names| && Given(v, out.names[i]) ::
         out.fields[i].Some? && VariableHolds(objs, a, "@" + out.names[i], out.fields[i].value)
  }

  /** The object built for a struct root has every field given in its variable
      exactly unless the attributes are stored over one. */
  lemma StructObjectHoldsFields(env: Env, document: TypeExpr, input: RValue, store: bool, instance: Instance,
                                objs: seq<Obj>, a: nat)
    requires document.Struct? && Distinct(FieldNames(document.fields))
    requires BuildSpec(env, document, PlanOf(document), input, store) == Success(instance)
    requires Holds(objs, a, instance, store)
    ensures FieldsHold(objs, a, Convert(input, []).value, Output(env, document, input))
       <==> !(store && "attributes" in FieldNames(document.fields) && Given(Convert(input, []).value, "attributes"))
  {
    OutputOfBuild(env, document, input, store, instance);
    StructBuildSetsFields(env, document, input, store, instance);
    var v, out := Convert(input, []).value, Output(env, document, input);
    forall i | 0 <= i < |out.names| && Given(v, out.names[i])
      ensures VariableHolds(objs, a, "@" + out.names[i], out.fields[i].value)
         <==> !(store && out.names[i] == "attributes")
    {
      PlannedVariable(out, store, instance, objs, a, i);
    }
  }

  /** The object built for any other root has them exactly if no field is given,
      or the only one is called attributes and equals the hash of the extras. */
  lemma OtherObjectHoldsFields(env: Env, document: TypeExpr, input: RValue, store: bool, instance: Instance,
                               objs: seq<Obj>, a: nat)
    requires !document.Struct?
    requires BuildSpec(env, document, PlanOf(document), input, store) == Success(instance)
    requires Holds(objs, a, instance, store)
    ensures Core(document).Struct?
    ensures var v, out, names := Convert(input, []).value, Output(env, document, input), FieldNames(Core(document).fields);
            && out.Struct? && |out.fields| == |names|
            && (FieldsHold(objs, a, v, out) <==>
                forall i | 0 <= i < |names| && Given(v, names[i]) ::
                  && store && names[i] == "attributes" && out.fields[i].Some?
                  && ToRuby(out.fields[i].value) == ToRuby(Value.Struct([], [], out.extras)))
  {
    OutputOfBuild(env, document, input, store, instance);
    var v, out := Convert(input, []).value, Output(env, document, input);
    forall i | 0 <= i < |out.names| && Given(v, out.names[i])
      ensures VariableHolds(objs, a, "@" + out.names[i], out.fields[i].value)
         <==> && store && out.names[i] == "attributes"
              && ToRuby(out.fields[i].value) == ToRuby(Value.Struct([], [], out.extras))
    {
      UnplannedVariable(out, store, instance, objs, a, i);
    }
  }

  /** A schema with one field, and an input that gives it. */
  function OneField(field: FieldExpr): TypeExpr {
    TypeExpr.Struct([field], Forbid)
  }

  function GivingOne(name: string, x: RValue): RValue {
    RHash([RPair(RSymbol(name), x)])
  }

  lemma OneFieldConverts(name: string, x: RValue, v: Value)
    requires Convert(x, [] + [Key(name)]) == Success(v)
    ensures Convert(GivingOne(name, x), []) == Success(Value.Dict([Entry(name, v)]))
  {
    var input, entries := GivingOne(name, x), [Entry(name, v)];
    var results := PairResults(input.pairs, []);
    assert results[0] == PairResult(input.pairs[0], []) == Success(Entry(name, v));
    GatherAll(results, entries, 1);
    assert entries[..1] == entries;
  }

  lemma OneFieldOutput(env: Env, field: FieldExpr, x: RValue, v: Value, y: Value)
    requires Convert(x, [] + [Key(field.name)]) == Success(v) && Yields(env, field.ty, false, v, y)
    ensures var out, input := Value.Struct([field.name], [Some(y)], []), GivingOne(field.name, x);
            && Convert(input, []).Success?
            && Run(env, OneField(field), Convert(input, []).value) == Accept(out)
            && Run(env, TypeExpr.Optional(OneField(field)), Convert(input, []).value) == Accept(out)
  {
    var name, input := field.name, GivingOne(field.name, x);
    var entries := [Entry(name, v)];
    var out, ty := Value.Struct([name], [Some(y)], []), OneField(field);
    OneFieldConverts(name, x, v);
    assert entries[..|entries| - 1] == [];
    assert FieldNames(ty.fields) == [name];
    assert YieldsSlot(env, ty.fields[0], entries, out.fields[0]);
    assert Undeclared([name], entries) == Undeclared([name], []) == [];
    assert Yields(env, ty, true, Value.Dict(entries), out);
    ValidationMeans(env, ty, [], Value.Dict(entries), out);
    ValidationMeans(env, TypeExpr.Optional(ty), [], Value.Dict(entries), out);
  }

  lemma OneStore(put: RPair)
    requires put.key.RSymbol?
    ensures Somes([Some(put)], 1) == [put] && Ivars([put], 1) == map["@" + put.key.name := put.value]
    ensures HashOf([put]) == RHash([put])
  {
    assert Somes([Some(put)], 0) == [] && Ivars([put], 0) == map[];
    assert PutAll([], [put], 0) == [];
  }

  lemma NoStores(root: Value, store: bool)
    requires root.Struct? && root.extras == []
    ensures Gather(ExtraSteps(root.extras, store), |root.extras|) == Success([])
    ensures Gather(PlanPuts([], root.names, root.fields), 0) == Success([])
  {
  }

  lemma OneFieldPlanned(name: string, y: Value, z: RValue, store: bool)
    requires ToRuby(y) == Success(z)
    ensures InstanceOf([name], Value.Struct([name], [Some(y)], []), store)
         == Success(Instance(map["@" + name := z], GivingOne(name, z).pairs))
  {
    var out := Value.Struct([name], [Some(y)], []);
    var put := RPair(RSymbol(name), z);
    var planned := PlanPuts([name], out.names, out.fields);
    assert planned[0] == PlanPut(out.names, out.fields, name) == Success(Some(put));
    GatherAll(planned, [Some(put)], 1);
    assert [Some(put)][..1] == [Some(put)];
    OneStore(put);
    NoStores(out, store);
    assert [put] + [] == [put];
  }

  lemma BuildOfRun(env: Env, document: TypeExpr, input: RValue, out: Value, store: bool, instance: Instance)
    requires Convert(input, []).Success? && Run(env, document, Convert(input, []).value) == Accept(out)
    requires InstanceOf(PlanOf(document), out, store) == Success(instance)
    ensures BuildSpec(env, document, PlanOf(document), input, store) == Success(instance)
  {
  }

  /** A build of one given field, end to end. */
  lemma OneFieldBuild(env: Env, field: FieldExpr, x: RValue, v: Value, y: Value, store: bool)
    requires Convert(x, [] + [Key(field.name)]) == Success(v) && Yields(env, field.ty, false, v, y)
    requires ToRuby(y).Success?
    ensures var z := ToRuby(y).value;
            var instance := Instance(map["@" + field.name := z], GivingOne(field.name, z).pairs);
            && BuildSpec(env, OneField(field), PlanOf(OneField(field)), GivingOne(field.name, x), store)
            == Success(instance)
            && HashOf(instance.stored) == GivingOne(field.name, z)
  {
    OneFieldOutput(env, field, x, v, y);
    var z := ToRuby(y).value;
    OneFieldPlanned(field.name, y, z, store);
    assert PlanOf(OneField(field)) == [field.name];
    BuildOfRun(env, OneField(field), GivingOne(field.name, x), Value.Struct([field.name], [Some(y)], []), store,
               Instance(map["@" + field.name := z], GivingOne(field.name, z).pairs));
    OneStore(RPair(RSymbol(field.name), z));
  }

  lemma NothingPlanned(out: Value, store: bool)
    requires out.Struct? && out.extras == []
    ensures InstanceOf([], out, store) == Success(Instance(map[], []))
  {
    NoStores(out, store);
    var none: seq<Option<RPair>> := [];
    var nothing := Somes(none, |none|);
    assert nothing == [] && Ivars(nothing, |nothing|) == map[] && nothing + [] == [];
    assert Gather(PlanPuts([], out.names, out.fields), |none|) == Success(none);
    match InstanceOf([], out, store)
    case Success(instance) => assert instance == Instance(map[], []);
    case Failure(_) => assert false;
  }

  /** A struct with a field called attributes, built with attributes stored:
      the variable holds the hash, not the field. */
  lemma AttributesOverwritten(env: Env, objs: seq<Obj>, a: nat)
    ensures var document := OneField(FieldExpr("attributes", Required, TypeExpr.Primitive(Any)));
            var input := GivingOne("attributes", RInteger(1));
            var spec := BuildSpec(env, document, PlanOf(document), input, true);
            && spec.Success?
            && (Holds(objs, a, spec.value, true) ==>
                  && "@attributes" in objs[a].body.ivars
                  && ReadBack(objs, objs[a].body.ivars["@attributes"]) == input != RInteger(1))
  {
    var field := FieldExpr("attributes", Required, TypeExpr.Primitive(Any));
    OneFieldBuild(env, field, RInteger(1), Value.Int(1), Value.Int(1), true);
  }

  /** An optional struct as root: the field is given, and no variable is set. */
  lemma OptionalRootSetsNothing(env: Env, objs: seq<Obj>, a: nat)
    ensures var document := TypeExpr.Optional(OneField(FieldExpr("x", Required, TypeExpr.Primitive(Any))));
            var input := GivingOne("x", RInteger(1));
            var spec := BuildSpec(env, document, PlanOf(document), input, false);
            && spec.Success?
            && (Holds(objs, a, spec.value, false) ==> objs[a].body.ivars == map[])
  {
    var field := FieldExpr("x", Required, TypeExpr.Primitive(Any));
    OneFieldOutput(env, field, RInteger(1), Value.Int(1), Value.Int(1));
    NothingPlanned(Value.Struct(["x"], [Some(Value.Int(1))], []), false);
  }
}
