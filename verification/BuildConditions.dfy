/** Conditions of a build that can be read off its input: when it succeeds, and
    when a root that is no struct still shows a field in a variable. */
module BuildConditions {
  import opened Wrappers
  import opened Values
  import opened Schema
  import opened Validation
  import opened Reporting
  import opened Accounts
  import opened Engine
  import opened NameFaults
  import opened Acceptance
  import opened Meaning
  import opened Conformance
  import opened Ruby
  import opened RubyInput
  import opened InputFaults
  import opened NormalForms
  import opened Materialize
  import opened RubyHeap
  import opened RoundTrip
  import opened Instances
  import opened Pipeline
  import opened BuiltObjects
  import opened Payload

  /** No NUL stands in the way of the instance: not in the planned values, not in
      the extras, and not in the extras' keys where these are stored. */
  predicate Unobstructed(plan: seq<string>, root: Value, store: bool) {
    && root.Struct?
    && (forall i | 0 <= i < |plan| ::
          match PlanValue(root.names, root.fields, plan[i])
          case Some(v) => Nameable(v)
          case None => true)
    && forall k | 0 <= k < |root.extras| ::
         Nameable(root.extras[k].value) && (store ==> NulFree(root.extras[k].key))
  }

  /** An instance can be made exactly of unobstructed structs. */
  lemma {:induction false} InstanceIsExact(plan: seq<string>, root: Value, store: bool)
    ensures InstanceOf(plan, root, store).Success? <==> Unobstructed(plan, root, store)
  {
    if root.Struct? {
      var puts, steps := PlanPuts(plan, root.names, root.fields), ExtraSteps(root.extras, store);
      forall i | 0 <= i < |plan|
        ensures puts[i].Success? <==> match PlanValue(root.names, root.fields, plan[i])
                                      case Some(v) => Nameable(v)
                                      case None => true
      {
        assert puts[i] == PlanPut(root.names, root.fields, plan[i]);
        if PlanValue(root.names, root.fields, plan[i]).Some? {
          MaterializeIsExact(PlanValue(root.names, root.fields, plan[i]).value);
        }
      }
      forall k | 0 <= k < |root.extras|
        ensures steps[k].Success? <==> Nameable(root.extras[k].value) && (store ==> NulFree(root.extras[k].key))
      {
        assert steps[k] == ExtraStep(root.extras[k], store);
        MaterializeIsExact(root.extras[k].value);
      }
      GatherExact(puts, |plan|);
      GatherExact(steps, |root.extras|);
    }
  }

  /** A struct comes out exactly when a dict goes into a struct, optional or not. */
  lemma {:induction false} StructOut(env: Env, ty: TypeExpr, v: Value, out: Value)
    requires Yields(env, ty, true, v, out) && StructFree(v)
    ensures out.Struct? <==> v.Dict? && Core(ty).Struct?
  {
    if ty.Optional? && !v.Null? {
      StructOut(env, ty.of, v, out);
    }
  }

  /** A build succeeds exactly if its input is supported, is accepted as a struct
      and yields one that nothing obstructs. */
  lemma {:induction false} BuildSucceedsExactly(env: Env, document: TypeExpr, input: RValue, store: bool)
    ensures BuildSpec(env, document, PlanOf(document), input, store).Success?
       <==> && Supported(input)
            && match Convert(input, [])
               case Success(v) =>
                 && Accepts(env, document, true, v) && v.Dict? && Core(document).Struct?
                 && forall out | Yields(env, document, true, v, out) :: Unobstructed(PlanOf(document), out, store)
               case Failure(_) => false
  {
    ConvertIsExact(input, []);
    if Convert(input, []).Success? {
      var v := Convert(input, []).value;
      ConvertedShape(input, []);
      RunAcceptance(env, document, v);
      if Run(env, document, v).value.Some? {
        OutputDecides(env, document, input, v, Run(env, document, v).value.value, store);
      }
    }
  }

  lemma {:induction false} OutputDecides(env: Env, document: TypeExpr, input: RValue, v: Value, out: Value, store: bool)
    requires Convert(input, []) == Success(v) && StructFree(v) && Run(env, document, v) == Accept(out)
    ensures BuildSpec(env, document, PlanOf(document), input, store).Success?
       <==> && v.Dict? && Core(document).Struct?
            && forall o | Yields(env, document, true, v, o) :: Unobstructed(PlanOf(document), o, store)
  {
    RunMeans(env, document, v, out);
    StructOut(env, document, v, out);
    InstanceIsExact(PlanOf(document), out, store);
    forall o | Yields(env, document, true, v, o) ensures o == out {
      RunMeans(env, document, v, o);
    }
  }

  /** For a struct root with attributes stored: exactly if the input is supported
      and accepted, and no name in the output holds a NUL. */
  lemma {:induction false} StructBuildSucceeds(env: Env, document: TypeExpr, input: RValue)
    requires document.Struct? && Distinct(FieldNames(document.fields))
    requires forall i | 0 <= i < |document.fields| :: NulFree(document.fields[i].name)
    ensures BuildSpec(env, document, PlanOf(document), input, true).Success?
       <==> && Supported(input)
            && match Convert(input, [])
               case Success(v) =>
                 Accepts(env, document, true, v) && forall out | Yields(env, document, true, v, out) :: Nameable(out)
               case Failure(_) => false
  {
    BuildSucceedsExactly(env, document, input, true);
    if Convert(input, []).Success? {
      var v := Convert(input, []).value;
      forall out | Yields(env, document, true, v, out)
        ensures Unobstructed(PlanOf(document), out, true) <==> Nameable(out)
      {
        assert forall i | 0 <= i < |out.names| :: out.names[i] == document.fields[i].name;
        InstanceIsExact(PlanOf(document), out, true);
        PlanRefinesDirect(out);
        MaterializeIsExact(out);
      }
    }
  }

  /** A failed build says what is wrong: with the input, by its first fault; with
      the value read from it, by all its issues; or with the output, by the first
      thing in the way of an instance. */
  ghost predicate FailsRightly(env: Env, document: TypeExpr, input: RValue, store: bool, error: BuildError) {
    match error
    case BadInput(e) => Faults(input, []) != [] && Blames(input, e, Faults(input, [])[0])
    case Rejected(issues) =>
      issues != [] && exists v :: Reads(input, v) && Accounted(env, document, v, issues)
    case Unmaterializable(e) =>
      exists v, out :: Reads(input, v) && Yields(env, document, true, v, out) && Obstructs(document, out, store, e)
  }

  ghost predicate Obstructs(document: TypeExpr, out: Value, store: bool, e: MaterializeError) {
    if !out.Struct? then e.UnsupportedRoot?
    else InstanceFaults(PlanOf(document), out, store) != [] && e == InstanceFaults(PlanOf(document), out, store)[0]
  }

  lemma {:induction false} BuildFailsRightly(env: Env, document: TypeExpr, input: RValue, store: bool)
    requires BuildSpec(env, document, PlanOf(document), input, store).Failure?
    ensures FailsRightly(env, document, input, store, BuildSpec(env, document, PlanOf(document), input, store).error)
  {
    if Convert(input, []).Failure? {
      FirstFaultBlamed(input);
    } else {
      var v := Convert(input, []).value;
      ConvertReads(input, [], v);
      RunAcceptance(env, document, v);
      if Run(env, document, v).issues != [] {
        RejectionAccounts(env, document, v);
      } else {
        var out := Run(env, document, v).value.value;
        RunMeans(env, document, v, out);
        if out.Struct? {
          InstanceRaisesFirst(PlanOf(document), out, store);
        }
        assert Obstructs(document, out, store, BuildSpec(env, document, PlanOf(document), input, store).error.materialize);
      }
    }
  }

  lemma {:induction false} RejectionAccounts(env: Env, document: TypeExpr, v: Value)
    ensures Accounted(env, document, v, Reports(Run(env, document, v).issues))
  {
    var run := Run(env, document, v);
    RunMeansResult(env, document, v, ValidationResult(run.value, Reports(run.issues)));
  }

  /** What the schema makes of this value is written as these extras alone. */
  predicate WritesExtras(ty: TypeExpr, x: Value, extras: seq<Entry>) {
    match ty
    case Optional(of) => !x.Null? && WritesExtras(of, x, extras)
    case Primitive(Any) => x == Value.Dict([]) && extras == []
    case Dict(_, _) => x == Value.Dict([]) && extras == []
    case Struct(fields, extra) =>
      && x.Dict? && (forall i | 0 <= i < |fields| :: !Given(x, fields[i].name))
      && extras == if extra.Allow? then Undeclared(FieldNames(fields), x.entries) else []
    case _ => false
  }

  /** Struct-free values are written differently. */
  lemma {:induction false} WrittenApart(v: Value, w: Value)
    requires StructFree(v) && StructFree(w) && KeysDistinct(v) && KeysDistinct(w)
    requires ToRuby(v).Success? && ToRuby(v) == ToRuby(w)
    ensures v == w
  {
    ReadsBackAt(v, []);
    ReadsBackAt(w, []);
    LowerStructFree(v);
    LowerStructFree(w);
  }

  /** Extras of a kind that can be told apart once written. */
  ghost predicate Clear(extras: seq<Entry>) {
    && Distinct(Keys(extras))
    && forall k | 0 <= k < |extras| :: StructFree(extras[k].value) && KeysDistinct(extras[k].value)
  }

  /** These pairs are these extras, written. */
  ghost predicate Written(pairs: seq<RPair>, extras: seq<Entry>) {
    && |pairs| == |extras|
    && forall k | 0 <= k < |extras| :: HoldsEntry(pairs[k], RString(extras[k].key), extras[k].value)
  }

  lemma {:induction false} SameExtras(pairs: seq<RPair>, a: seq<Entry>, b: seq<Entry>)
    requires Written(pairs, a) && Written(pairs, b) && Clear(a) && Clear(b)
    ensures a == b
  {
    forall k | 0 <= k < |a| ensures a[k] == b[k] {
      assert HoldsEntry(pairs[k], RString(a[k].key), a[k].value);
      assert HoldsEntry(pairs[k], RString(b[k].key), b[k].value);
      WrittenApart(a[k].value, b[k].value);
    }
  }

  lemma {:induction false} ExtrasAsHash(extras: seq<Entry>) returns (pairs: seq<RPair>)
    requires Clear(extras) && ToRuby(Value.Struct([], [], extras)).Success?
    ensures ToRuby(Value.Struct([], [], extras)) == Success(RHash(pairs)) && Written(pairs, extras)
  {
    var declared, more := StructBecomesHash(Value.Struct([], [], extras));
    assert Present([], [], 0) == [] && declared == [];
    pairs := more;
    assert declared + more == more;
  }

  /** A struct is written as these extras exactly if nothing is present in it and
      they are its own. */
  lemma {:induction false} StructAsExtras(y: Value, extras: seq<Entry>)
    requires y.Struct? && |y.names| == |y.fields| && KeysDistinct(y) && Clear(y.extras) && Clear(extras)
    requires ToRuby(y).Success? && ToRuby(Value.Struct([], [], extras)).Success?
    ensures ToRuby(y) == ToRuby(Value.Struct([], [], extras))
       <==> (forall i | 0 <= i < |y.fields| :: y.fields[i].None?) && y.extras == extras
  {
    var pairs := ExtrasAsHash(extras);
    if forall i | 0 <= i < |y.fields| :: y.fields[i].None? {
      NothingPresent(y);
      if ToRuby(y) == ToRuby(Value.Struct([], [], extras)) {
        var own := ExtrasAsHash(y.extras);
        SameExtras(pairs, y.extras, extras);
      }
    } else {
      var i :| 0 <= i < |y.fields| && y.fields[i].Some?;
      var declared, more := StructBecomesHash(y);
      var present := Present(y.names, y.fields, |y.names|);
      FindPresent(y.names, y.fields, |y.names|, i);
      var k := DictFindIndex(present, y.names[i]);
      assert (declared + more)[k] == declared[k];
      assert HoldsEntry(declared[k], RSymbol(present[k].key), present[k].value);
      SymbolApart(pairs, extras, declared + more, k);
    }
  }

  lemma {:induction false} SymbolApart(pairs: seq<RPair>, extras: seq<Entry>, others: seq<RPair>, k: nat)
    requires Written(pairs, extras) && k < |others| && others[k].key.RSymbol?
    ensures others != pairs
  {
    if |others| == |pairs| {
      assert HoldsEntry(pairs[k], RString(extras[k].key), extras[k].value);
    }
  }

  /** A dict is written under symbols, so as extras only if there is nothing. */
  lemma {:induction false} DictAsExtras(entries: seq<Entry>, extras: seq<Entry>)
    requires Distinct(Keys(entries)) && Clear(extras)
    requires ToRuby(Value.Dict(entries)).Success? && ToRuby(Value.Struct([], [], extras)).Success?
    ensures ToRuby(Value.Dict(entries)) == ToRuby(Value.Struct([], [], extras)) <==> entries == [] && extras == []
  {
    var pairs := ExtrasAsHash(extras);
    DictBecomesHash(entries);
    if entries != [] {
      var hash := ToRuby(Value.Dict(entries)).value;
      assert HoldsEntry(hash.pairs[0], RSymbol(entries[0].key), entries[0].value);
      SymbolApart(pairs, extras, hash.pairs, 0);
    }
  }

  /** The struct read below the root, as far as its extras go. */
  lemma {:induction false} StructRead(env: Env, ty: TypeExpr, x: Value, y: Value)
    requires ty.Struct? && Yields(env, ty, false, x, y)
    requires StructFree(x) && KeysDistinct(x) && NamesDistinct(ty)
    ensures KeysDistinct(y) && Clear(y.extras)
    ensures y.extras == if ty.extra.Allow? then Undeclared(FieldNames(ty.fields), x.entries) else []
    ensures forall i | 0 <= i < |y.fields| :: y.fields[i].None? <==> !Given(x, ty.fields[i].name)
  {
    YieldsDistinct(env, ty, false, x, y);
    UndeclaredIn(FieldNames(ty.fields), x.entries);
    forall i | 0 <= i < |y.fields| ensures y.fields[i].None? <==> !Given(x, ty.fields[i].name) {
      assert YieldsSlot(env, ty.fields[i], x.entries, y.fields[i]);
    }
  }

  /** What this value yields is written as these extras, or is not. */
  lemma {:induction false} WritesExtrasIff(env: Env, ty: TypeExpr, x: Value, y: Value, extras: seq<Entry>)
    requires Yields(env, ty, false, x, y) && StructFree(x) && KeysDistinct(x) && NamesDistinct(ty)
    requires Clear(extras) && ToRuby(Value.Struct([], [], extras)).Success?
    ensures ToRuby(y) == ToRuby(Value.Struct([], [], extras)) <==> WritesExtras(ty, x, extras)
    decreases ty
  {
    var pairs := ExtrasAsHash(extras);
    match ty
    case Optional(of) =>
      if !x.Null? {
        WritesExtrasIff(env, of, x, y, extras);
      }
    case Struct(_, _) =>
      StructRead(env, ty, x, y);
      if ToRuby(y).Success? {
        StructAsExtras(y, extras);
      } else if WritesExtras(ty, x, extras) {
        NothingPresent(y);
      }
    case _ => UnstructuredAsExtras(env, ty, x, y, extras);
  }

  lemma {:induction false} UnstructuredAsExtras(env: Env, ty: TypeExpr, x: Value, y: Value, extras: seq<Entry>)
    requires !ty.Optional? && !ty.Struct?
    requires Yields(env, ty, false, x, y) && StructFree(x) && KeysDistinct(x) && NamesDistinct(ty)
    requires Clear(extras) && ToRuby(Value.Struct([], [], extras)).Success?
    ensures ToRuby(y) == ToRuby(Value.Struct([], [], extras)) <==> WritesExtras(ty, x, extras)
  {
    var pairs := ExtrasAsHash(extras);
    YieldsDistinct(env, ty, false, x, y);
    if y.Dict? && ToRuby(y).Success? {
      DictAsExtras(y.entries, extras);
      assert x.Dict? && |x.entries| == |y.entries|;
    } else if y.Dict? {
      assert y.entries != [] by {
        MaterializeIsExact(y);
      }
      assert x.Dict? && |x.entries| == |y.entries|;
    }
  }

  /** The object built for a root that is no struct, where keys are not confused:
      its fields hold exactly if none is given, or only one called attributes,
      whose value is written as the extras of the whole. */
  lemma {:induction false} OtherObjectByInput(env: Env, document: TypeExpr, input: RValue, store: bool,
                                              instance: Instance, objs: seq<Obj>, a: nat)
    requires !document.Struct? && NamesDistinct(document) && KeyTextsDistinct(input)
    requires BuildSpec(env, document, PlanOf(document), input, store) == Success(instance)
    requires Holds(objs, a, instance, store)
    ensures Core(document).Struct? && Convert(input, []).value.Dict?
    ensures var v, fields := Convert(input, []).value, Core(document).fields;
            var extras := if env.extraBehavior.Allow? then Undeclared(FieldNames(fields), v.entries) else [];
            FieldsHold(objs, a, v, Output(env, document, input)) <==>
            (forall i | 0 <= i < |fields| && Given(v, fields[i].name) ::
               && store && fields[i].name == "attributes"
               && WritesExtras(fields[i].ty, DictFind(v.entries, fields[i].name).value, extras))
  {
    OtherObjectHoldsFields(env, document, input, store, instance, objs, a);
    OutputOfBuild(env, document, input, store, instance);
    var v, out, fields := Convert(input, []).value, Output(env, document, input), Core(document).fields;
    forall i | 0 <= i < |fields| && Given(v, fields[i].name)
      ensures && store && out.fields[i].Some?
              && ToRuby(out.fields[i].value) == ToRuby(Value.Struct([], [], out.extras))
         <==> store && WritesExtras(fields[i].ty, DictFind(v.entries, fields[i].name).value, out.extras)
    {
      if store {
        FieldWritesExtras(env, document, input, instance, i);
      }
    }
    assert forall i | 0 <= i < |fields| :: FieldNames(fields)[i] == fields[i].name;
  }

  lemma {:induction false} FieldWritesExtras(env: Env, document: TypeExpr, input: RValue, instance: Instance, i: nat)
    requires !document.Struct? && NamesDistinct(document) && KeyTextsDistinct(input)
    requires BuildSpec(env, document, PlanOf(document), input, true) == Success(instance)
    requires Core(document).Struct? && i < |Core(document).fields|
    requires Given(Convert(input, []).value, Core(document).fields[i].name)
    ensures var v, out, field := Convert(input, []).value, Output(env, document, input), Core(document).fields[i];
            && out.Struct? && i < |out.fields| && out.fields[i].Some?
            && (ToRuby(out.fields[i].value) == ToRuby(Value.Struct([], [], out.extras)) <==>
                WritesExtras(field.ty, DictFind(v.entries, field.name).value, out.extras))
  {
    var v, out, core := Convert(input, []).value, Output(env, document, input), Core(document);
    OtherBuildStoresExtras(env, document, input, instance);
    OutputOfBuild(env, document, input, true, instance);
    ConvertedShape(input, []);
    RunMeans(env, document, v, out);
    CoreNamesDistinct(document);
    CoreYields(env, document, v, out);
    OutputExtrasClear(env, document, v, out);
    FieldRead(env, core, v, out, i);
    WritesExtrasIff(env, core.fields[i].ty, DictFind(v.entries, core.fields[i].name).value, out.fields[i].value,
                    out.extras);
  }

  lemma {:induction false} OutputExtrasClear(env: Env, ty: TypeExpr, v: Value, out: Value)
    requires Yields(env, ty, true, v, out) && NamesDistinct(ty)
    requires StructFree(v) && KeysDistinct(v) && v.Dict? && out.Struct?
    requires out.extras == if env.extraBehavior.Allow? then Undeclared(out.names, v.entries) else []
    ensures Clear(out.extras)
  {
    YieldsDistinct(env, ty, true, v, out);
    UndeclaredIn(out.names, v.entries);
  }

  /** A given field of a struct, with its input and what that yields. */
  lemma {:induction false} FieldRead(env: Env, core: TypeExpr, v: Value, out: Value, i: nat)
    requires core.Struct? && Yields(env, core, true, v, out) && NamesDistinct(core)
    requires StructFree(v) && KeysDistinct(v) && i < |core.fields| && Given(v, core.fields[i].name)
    ensures var x := DictFind(v.entries, core.fields[i].name).value;
            && StructFree(x) && KeysDistinct(x) && NamesDistinct(core.fields[i].ty)
            && out.fields[i].Some? && Yields(env, core.fields[i].ty, false, x, out.fields[i].value)
  {
    assert YieldsSlot(env, core.fields[i], v.entries, out.fields[i]);
    FindStructFree(v.entries, core.fields[i].name);
    FindKeysDistinct(v.entries, core.fields[i].name);
  }
}
