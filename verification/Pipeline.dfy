/** The whole of `Rustly::Core.build`: convert, validate, materialise. */
module Pipeline {
  import opened Wrappers
  import opened Values
  import opened Schema
  import opened HashConsing
  import Json
  import SchemaParser
  import WellFormed
  import CompileErrors
  import opened Validation
  import opened Accounts
  import opened Engine
  import opened Acceptance
  import opened Conformance
  import opened Ruby
  import opened RubyInput
  import opened InputFaults
  import opened Materialize
  import opened RubyHeap
  import opened Instances

  datatype BuildError =
    | BadInput(input: InputError)
    | Rejected(issues: seq<ValidationIssue>)
    | Unmaterializable(materialize: MaterializeError)

  /** The plan of a compiled document: its field names, if its root is itself
      a struct. */
  function PlanOf(document: TypeExpr): seq<string> {
    if document.Struct? then FieldNames(document.fields) else []
  }

  /** What a build comes to, without the heap. */
  function BuildSpec(env: Env, document: TypeExpr, plan: seq<string>, input: RValue, store: bool)
    : Result<Instance, BuildError>
  {
    match Convert(input, [])
    case Failure(f) => Failure(BadInput(Explain(f)))
    case Success(v) =>
      var run := Run(env, document, v);
      if run.issues != [] || run.value.None? then Failure(Rejected(Reports(run.issues)))
      else
        match InstanceOf(plan, run.value.value, store)
        case Failure(f) => Failure(Unmaterializable(f))
        case Success(instance) => Success(instance)
  }

  /** A compiled schema: its nodes, and the plan made from them. */
  ghost predicate Compiled(ir: SchemaIr, document: TypeExpr, plan: seq<string>) {
    FaithfulIr(ir, document) && plan == PlanOf(document)
  }

  method Compile(document: TypeExpr) returns (ir: SchemaIr, plan: Result<seq<string>, Panic>)
    requires |SubExprs(document)| <= U32_MAX
    ensures FaithfulIr(ir, document)
    ensures if forall i | 0 <= i < |PlanOf(document)| :: NulFree(PlanOf(document)[i])
            then plan == Success(PlanOf(document)) else plan.Failure?
  {
    ir := BuildIr(document);
    assert ChildrenBelow(ir.nodes[ir.root], ir.root);
    plan := BuildMaterializePlan(ir);
    if document.Struct? {
      assert NodeNames(ir.nodes[ir.root].fields) == PlanOf(document);
      assert forall i | 0 <= i < |PlanOf(document)| :: PlanOf(document)[i] == ir.nodes[ir.root].fields[i].name;
    }
  }

  /** A compiled schema, or the panic that making its plan ran into. */
  datatype CompiledSchema = CompiledSchema(ir: SchemaIr, plan: Result<seq<string>, Panic>)

  /** From a schema document to a compiled schema: it fails exactly if the
      document is not well formed, with the error of the parser. */
  method CompileDocument(toF64: int -> F64, document: Json.Json)
    returns (r: Result<CompiledSchema, SchemaParser.CompileError>)
    requires SchemaParser.ParseDocument(toF64, document).Success? ==>
               |SubExprs(SchemaParser.ParseDocument(toF64, document).value)| <= U32_MAX
    ensures r.Success? <==> WellFormed.TypeOk(document, map[])
    ensures CompileErrors.Gives(r, CompileErrors.TypeErrors(document, map[], "$"))
    ensures match SchemaParser.ParseDocument(toF64, document)
            case Failure(e) => r == Failure(e)
            case Success(ty) =>
              && r.Success? && FaithfulIr(r.value.ir, ty)
              && if forall i | 0 <= i < |PlanOf(ty)| :: NulFree(PlanOf(ty)[i])
                 then r.value.plan == Success(PlanOf(ty)) else r.value.plan.Failure?
  {
    WellFormed.DocumentParsesIfOk(toF64, document);
    CompileErrors.DocumentGives(toF64, document);
    var parsed := SchemaParser.ParseDocument(toF64, document);
    if parsed.Failure? {
      return Failure(parsed.error);
    }
    var ir, plan := Compile(parsed.value);
    r := Success(CompiledSchema(ir, plan));
  }

  lemma SpecOfRun(env: Env, document: TypeExpr, plan: seq<string>, input: RValue, store: bool)
    requires Convert(input, []).Success?
    ensures var run := Run(env, document, Convert(input, []).value);
            && (run.issues != [] ==>
                  BuildSpec(env, document, plan, input, store) == Failure(Rejected(Reports(run.issues))))
            && (run.issues == [] && run.value.Some? ==>
                  BuildSpec(env, document, plan, input, store)
                  == match InstanceOf(plan, run.value.value, store)
                     case Failure(f) => Failure(Unmaterializable(f))
                     case Success(instance) => Success(instance))
  {
  }

  /** A run without issues has its output. */
  lemma ReportedRun(env: Env, document: TypeExpr, v: Value, result: ValidationResult)
    requires var run := Run(env, document, v); result == ValidationResult(run.value, Reports(run.issues))
    ensures result.issues == [] <==> Run(env, document, v).issues == []
    ensures result.issues == [] <==> result.output.Some?
  {
    RunAcceptance(env, document, v);
    assert |result.issues| == |Run(env, document, v).issues|;
  }

  /** Builds on the heap what `BuildSpec` says. The output of an issue-free
      validation is used without a check: there always is one. */
  method Build(heap: Heap, ir: SchemaIr, plan: seq<string>, ghost document: TypeExpr, input: RValue, env: Env,
               mode: FreezeMode, store: bool)
    returns (r: Result<nat, BuildError>)
    requires Ordered(heap.objs) && Compiled(ir, document, plan)
    modifies heap
    ensures old(heap.objs) <= heap.objs
    ensures match BuildSpec(env, document, plan, input, store)
            case Failure(f) => r == Failure(f)
            case Success(instance) =>
              && r == Success(|old(heap.objs)|)
              && Holds(heap.objs, |old(heap.objs)|, instance, store)
              && Sealed(heap.objs, |old(heap.objs)|, mode, store)
  {
    var converted := ConvertOwned(input);
    if converted.Failure? {
      return Failure(BadInput(converted.error));
    }
    var result := ValidateOwned(ir, converted.value, env);
    ReportedRun(env, document, converted.value, result);
    SpecOfRun(env, document, plan, input, store);
    if result.issues != [] {
      return Failure(Rejected(result.issues));
    }
    var made := MaterializeInstance(heap, result.output.value, plan, mode, store);
    r := match made
         case Success(a) => Success(a)
         case Failure(f) => Failure(Unmaterializable(f));
  }

  /** The output of an issue-free run. */
  function Output(env: Env, document: TypeExpr, input: RValue): Value
    requires Convert(input, []).Success? && Run(env, document, Convert(input, []).value).value.Some?
  {
    Run(env, document, Convert(input, []).value).value.value
  }

  /** Before the attributes are stored, the variables set for a struct root are
      those of the fields that are present, each with its own value. */
  lemma StructBuildSetsFields(env: Env, document: TypeExpr, input: RValue, store: bool, instance: Instance)
    requires document.Struct? && Distinct(FieldNames(document.fields))
    requires BuildSpec(env, document, PlanOf(document), input, store) == Success(instance)
    ensures var out := Output(env, document, input);
            && out.Struct? && out.names == FieldNames(document.fields) && |out.fields| == |out.names|
            && HoldsFields(instance.ivars, out, |out.names|)
  {
    var v := Convert(input, []).value;
    ConvertedShape(input, []);
    SuccessConforms(env, document, [], v);
    var out := Output(env, document, input);
    var puts := PlanPuts(out.names, out.names, out.fields);
    GatherSuccess(puts, |out.names|);
    var slots := Gather(puts, |out.names|).value;
    forall i | 0 <= i < |slots| ensures PlanPut(out.names, out.fields, out.names[i]) == Success(slots[i]) {
      assert puts[i] == PlanPut(out.names, out.fields, out.names[i]);
    }
    IvarsAreFields(out, slots, |slots|);
  }

  /** With attributes stored, they are the hash the whole output converts to. */
  lemma StructBuildStoresOutput(env: Env, document: TypeExpr, input: RValue, instance: Instance)
    requires document.Struct? && Distinct(FieldNames(document.fields))
    requires forall i | 0 <= i < |document.fields| :: NulFree(document.fields[i].name)
    requires BuildSpec(env, document, PlanOf(document), input, true) == Success(instance)
    ensures ToRuby(Output(env, document, input)) == Success(HashOf(instance.stored))
  {
    StructBuildSetsFields(env, document, input, true, instance);
    PlanRefinesDirect(Output(env, document, input));
  }
}
