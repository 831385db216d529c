# Rustly::Core, modelled

Rustly::Core compiles a schema document into a shared arena of nodes, checks
and coerces Ruby or JSON input against it, and builds a Ruby object from the
result. This project models that pipeline in Dafny and proves what each stage
promises, over all schemas, inputs and options.

- `Values`, `Schema`, `Json`, `Ruby`, `Paths`, `Wrappers`: the data.
- `SchemaParser`, `WellFormed`, `CompileErrors`, `TypeNames`, `SurfaceForms`,
  `OptionalForms`, `Spelling`: schema documents to type expressions.
- `HashConsing`: type expressions to the hash-consed arena.
- `Validation` is the meaning of validation, a function on type expressions;
  `Engine` is the stateful validator on the arena, with its path stack and
  issue list, proved to compute that meaning. `Meaning`, `Reporting`
  and `IssueOrder` characterise outputs, issues and their order without running
  anything, and `Accounts` what a caller gets; `Acceptance`,
  `Conformance`, `StrictLenient`, `NormalForms`, `RootOverride`, `Locations`,
  `KeyOrder` and `WorkBound` (with `Outcomes`) prove further properties.
- `RubyInput`, `InputFaults`, `JsonInput`: the two ways in.
- `Materialize` (as values), `RubyHeap` and `Materializer` (as a heap of
  objects with frozen flags), `Instances`, `NameFaults`: the way out. `RoundTrip` closes the
  circle, `Pipeline` puts `build` together, and `BuiltObjects`,
  `Payload` and `BuildConditions` say when a build succeeds and what the built
  object holds.
- `Vocabulary`: comparisons, texts, names and numbers, each by itself.

`dafny verify dfyconfig.toml` checks everything.

Reading notes:

- Library functions are parameters, and results hold for all choices of them:
  `Runtime` bundles trimming, the two number parsers and the
  integer-to-float conversion.
- `Env` is that runtime with the two options that decide validation, `strict`
  and the root extras policy.
- Floats are NaN, the infinities and the reals: only comparison and equality
  are observed. Strings are sequences of Unicode characters.
- Distinct keys and distinct field names are hypotheses only where a result
  needs them: the compiler accepts repeated names, and `"a"` and `:a` are one
  key after conversion.

Findings:

- `README.md:65` says `store_attributes` captures the raw payload. For a
  struct root the code stores the validated output
  (`Pipeline.StructBuildStoresOutput`), which is not the payload for an integer
  given as text (`Payload.PayloadNotKept`). For any other root it stores the
  extras alone (`Payload.OtherBuildStoresExtras`,
  `Payload.OptionalRootLosesPayload`). When either is the payload is exactly
  `Payload.AttributesAreRawPayload`.
- Size limits apply to the elements that validated. This never changes
  acceptance (`Acceptance.AcceptanceIsExact`), but a list that is long enough
  can be reported short (`Reporting.LongEnoughYetShort`), exactly when too few
  of its elements are usable (`Reporting.ShortExactly`).
- A root `["optional", struct]` validates as the struct but sets no instance
  variables (`BuiltObjects.OptionalRootSetsNothing`,
  `BuiltObjects.OtherObjectHoldsFields`).
- With attributes stored, a field named `attributes` loses its variable to the
  attributes hash (`BuiltObjects.AttributesOverwritten`), and this is the only
  way a struct root fails to hold its fields
  (`BuiltObjects.StructObjectHoldsFields`).
- The two spellings of an optional differ under field options
  (`SurfaceForms.OptionalSpellingsDiffer`, `OptionalForms.ListCompleted`),
  exactly when these sway a complete inner type or complete an incomplete one
  (`OptionalForms.OptionalsAgreeExactly`).
- Paths with empty, dotted or bracketed keys render ambiguously
  (`Paths.RenderAmbiguous`); exactly the others can be read back
  (`Paths.RenderDecodes`).

## Model

| member | source | states |
|---|---|---|
| HashConsing.SchemaArena.Alloc | ext/rustly_core/src/schema/ir.rs:119-123 | an id is the position of its node, and the arena only grows |
| HashConsing.InternTable.Intern | ext/rustly_core/src/schema/ir.rs:172-179 | the returned id holds the node, a known node allocates nothing, and table and arena stay mutually inverse and layered |
| HashConsing.InternAs | ext/rustly_core/src/schema/compiler.rs:154-162 | interning a node whose children already mean the parts of a type makes the arena mean that type, and adds no other meaning |
| HashConsing.BuildTypeExpr | ext/rustly_core/src/schema/compiler.rs:148-202 | the returned id unfolds to the type expression; earlier nodes are untouched; the meanings of the arena grow by exactly the sub-expressions |
| HashConsing.BuildFields | ext/rustly_core/src/schema/compiler.rs:186-195 | the struct fields built carry each name and presence in order, with an id that unfolds to the field type |
| HashConsing.BuildIr | ext/rustly_core/src/schema/compiler.rs:141-146 | compilation is exact and minimal: the root unfolds to the document, two ids mean the same type iff they are equal, and there is one node per distinct sub-expression |
| HashConsing.UnfoldStable | ext/rustly_core/src/schema/ir.rs:119-123 | growing the arena never changes what an existing id means |
| HashConsing.UnfoldInjective | ext/rustly_core/src/schema/ir.rs:172-179 | maximal sharing: in a consed arena two ids that mean the same type are one id |
| HashConsing.MeaningsCount | ext/rustly_core/src/schema/ir.rs:172-179 | every prefix of a consed arena has as many distinct meanings as nodes |
| HashConsing.RoomForNode | ext/rustly_core/src/schema/ir.rs:9-13 | the 32-bit id cannot overflow while a document has at most `u32::MAX` distinct sub-expressions |
| HashConsing.ConsedIsFaithful | ext/rustly_core/src/schema/compiler.rs:141-146 | a consed arena whose meanings are the sub-expressions has the whole compilation guarantee |
| Engine.Validator.constructor | ext/rustly_core/src/validation/engine.rs:109-117 | a new validator has an empty path and no issues |
| Engine.Validator.PushIssue | ext/rustly_core/src/validation/engine.rs:450-453 | exactly one issue is appended, its text the rendering of the current path |
| Engine.Validator.CoerceBool | ext/rustly_core/src/validation/engine.rs:378-396 | result and recorded issues are those of the tree semantics; the path is unchanged |
| Engine.Validator.CoerceInt | ext/rustly_core/src/validation/engine.rs:398-411 | likewise for integers, trimmed and parsed from text only when lenient |
| Engine.Validator.CoerceFloat | ext/rustly_core/src/validation/engine.rs:413-427 | likewise for floats, which also take integers in either mode |
| Engine.Validator.CoerceString | ext/rustly_core/src/validation/engine.rs:429-437 | likewise for strings, never coerced |
| Engine.Validator.CoerceSymbol | ext/rustly_core/src/validation/engine.rs:439-448 | likewise for symbols |
| Engine.Validator.ApplyIntConstraints | ext/rustly_core/src/validation/engine.rs:493-512 | exactly the bound violations are recorded, minimum first |
| Engine.Validator.ApplyFloatConstraints | ext/rustly_core/src/validation/engine.rs:514-539 | the same with IEEE comparison: NaN violates neither bound |
| Engine.Validator.ApplySizeConstraints | ext/rustly_core/src/validation/engine.rs:563-578 | exactly the size violations are recorded, with the bound wrapped to 64 signed bits |
| Engine.Validator.ApplyStringConstraints | ext/rustly_core/src/validation/engine.rs:541-561 | size issues in characters, then the format issue |
| Engine.Validator.ValidatePrimitive | ext/rustly_core/src/validation/engine.rs:166-188 | coercion and constraints together compute the tree semantics |
| Engine.Validator.ValidateEnum | ext/rustly_core/src/validation/engine.rs:190-217 | a listed symbol, or leniently a listed string made a symbol; otherwise the right issue |
| Engine.Validator.ValidateOptional | ext/rustly_core/src/validation/engine.rs:219-228 | null passes; anything else is the inner type at the same path |
| Engine.Validator.ValidateItems | ext/rustly_core/src/validation/engine.rs:247-254 | the element loop keeps the valid elements in order, restores the path and appends the issues in element order |
| Engine.Validator.ValidateList | ext/rustly_core/src/validation/engine.rs:230-258 | result, issues and number of visits of a list node are those of the unshared type |
| Engine.Validator.ValidateEntries | ext/rustly_core/src/validation/engine.rs:276-283 | the entry loop keeps key and order of the valid entries |
| Engine.Validator.ValidateDict | ext/rustly_core/src/validation/engine.rs:260-287 | result, issues and number of visits of a dict node are those of the unshared type |
| Engine.Validator.ValidateField | ext/rustly_core/src/validation/engine.rs:322-333 | a field found is validated below its name, a required one not found is reported there |
| Engine.Validator.ValidateFields | ext/rustly_core/src/validation/engine.rs:320-334 | one slot per declared field, in order |
| Engine.Validator.ValidateExtras | ext/rustly_core/src/validation/engine.rs:344-367 | undeclared entries are reported, dropped or kept, by the policy in force |
| Engine.Validator.ValidateStruct | ext/rustly_core/src/validation/engine.rs:289-376 | fields, then extras under the option at the empty path and under the own policy elsewhere |
| Engine.Validator.ValidateNode | ext/rustly_core/src/validation/engine.rs:147-164 | on any node of the arena: output and appended issues are those of the unfolded type, the path stack is restored, earlier issues are kept |
| Engine.Validator.ValidateRoot | ext/rustly_core/src/validation/engine.rs:119-122 | the same from the root, in at most `(root + 1) * size` node visits if field names are distinct |
| Engine.Validator.Finish | ext/rustly_core/src/validation/engine.rs:124-145 | issues suppress the output |
| Engine.FindInDict | ext/rustly_core/src/validation/engine.rs:601-609 | the value of the first entry under the key |
| Engine.FindFieldIndex | ext/rustly_core/src/validation/engine.rs:611-613 | the position of the first field of that name, if there is one |
| Engine.ValidateOwned | ext/rustly_core/src/validation/engine.rs:63-73 | what the caller gets: every issue due in the input, rendered, with its code and meta, in order, and once where keys and names are distinct; and the output iff the schema makes it of the input |
| Accounts.ReportedExactly | ext/rustly_core/src/validation/engine.rs:450-453 | a rendered path, code and meta are reported iff an issue with that code and meta is due at a place with that rendering |
| Accounts.ReportedOnce | ext/rustly_core/src/validation/engine.rs:620-638 | with distinct and plain keys and names nothing is reported twice |
| Accounts.RunMeansResult | ext/rustly_core/src/validation/engine.rs:124-145 | a run, shown, is a complete report in order, and the output the schema says |
| Engine.CompileAndValidate | ext/rustly_core/src/schema/compiler.rs:141-202 | compilation preserves meaning: lowering a document and running the engine on the arena reports and yields, completely and in order, what the document says of the input |
| Meaning.ValidationMeans | ext/rustly_core/src/validation/engine.rs:147-376 | validation accepts an input with an output iff a relation that runs nothing holds between them: coercions, kept elements, first entry per field, extras by policy |
| Meaning.RunMeans | ext/rustly_core/src/validation/engine.rs:124-145 | a run succeeds with the related output and with no other |
| Meaning.CollectAll | ext/rustly_core/src/validation/engine.rs:247-254 | a loop over elements is clean with given values iff each element yields its own |
| Meaning.ExtrasYield | ext/rustly_core/src/validation/engine.rs:344-367 | the extras loop is clean with given extras iff these are the undeclared entries in order, as the policy says |
| Reporting.IssuesAreFaults | ext/rustly_core/src/validation/engine.rs:147-578 | an issue is recorded iff its path continues the current one and what is wrong there calls for exactly its code and meta, element counts being those of usable elements |
| Reporting.NoIssueTwice | ext/rustly_core/src/validation/engine.rs:147-578 | with distinct keys and names no issue is recorded twice, so the list is the set of what is wrong |
| IssueOrder.IssuesInOrder | ext/rustly_core/src/validation/engine.rs:247-376 | issues come in an order defined on type and input: fields as declared before other entries as they come, elements by position and then their size, minimum before maximum, format last |
| IssueOrder.OrderIsTotal | ext/rustly_core/src/validation/engine.rs:247-376 | with distinct keys and names that order decides between any two issues that are due, so there is one list they can come in |
| Reporting.ShortExactly | ext/rustly_core/src/validation/engine.rs:255-256 | a list or dict is reported short iff fewer of its elements are usable than the minimum |
| Reporting.ShortBecauseDropped | ext/rustly_core/src/validation/engine.rs:247-256 | a list long enough is reported short only because some element was dropped, with an issue of its own |
| Reporting.LongEnoughYetShort | ext/rustly_core/src/validation/engine.rs:247-256 | a list of two, at least two asked for, is reported short |
| Reporting.KeptIfUsable | ext/rustly_core/src/validation/engine.rs:147-376 | a value is kept, if with issues, iff its outermost shape can be read |
| Acceptance.AcceptanceIsExact | ext/rustly_core/src/validation/engine.rs:147-376 | no issue is recorded iff the value satisfies a declarative predicate on input sizes, although the code measures what survives and goes on after failures |
| Acceptance.RunAcceptance | ext/rustly_core/src/validation/engine.rs:124-145 | a run has an output iff it has no issues iff the value is accepted |
| Acceptance.NoSilentFailure | ext/rustly_core/src/validation/engine.rs:166-376 | a sub-validation without a value has recorded an issue |
| Acceptance.PrimitiveExact | ext/rustly_core/src/validation/engine.rs:378-578 | primitives record nothing exactly for the values of their kind, or readable as it when lenient, within bounds |
| Acceptance.ItemsExact | ext/rustly_core/src/validation/engine.rs:247-256 | the element loop is clean iff all elements are accepted, and then none is dropped, so the measured size is the input size |
| Acceptance.EntriesExact | ext/rustly_core/src/validation/engine.rs:276-285 | the same for dict entries |
| Acceptance.FieldsExact | ext/rustly_core/src/validation/engine.rs:320-334 | the field loop is clean iff present fields are accepted and absent ones optional |
| Acceptance.ExtrasExact | ext/rustly_core/src/validation/engine.rs:344-367 | extras are reported iff the policy forbids them and there is one |
| Conformance.SuccessConforms | ext/rustly_core/src/validation/engine.rs:124-376 | an issue-free validation has an output, of the schema shape: kinds, bounds, listed symbols, required slots filled, extras only under Allow and apart from the fields |
| Conformance.ExtrasConform | ext/rustly_core/src/validation/engine.rs:344-367 | kept extras are input entries under undeclared names, and only Allow keeps any |
| Conformance.OutputsStayDistinct | ext/rustly_core/src/validation/engine.rs:260-376 | distinct keys and declared names give outputs with distinct keys |
| StrictLenient.StrictRefinesLenient | ext/rustly_core/src/validation/engine.rs:190-448 | whatever strict validation accepts, lenient validation accepts with the same output |
| StrictLenient.LenientIsStrict | ext/rustly_core/src/validation/engine.rs:190-448 | a lenient success is a strict success with the same output iff nothing was read from text |
| NormalForms.OutputIsNormal | ext/rustly_core/src/validation/engine.rs:289-448 | every conforming output with distinct keys, written back as input, passes strict validation unchanged |
| NormalForms.RevalidateStrictly | ext/rustly_core/src/validation/engine.rs:289-448 | strict validation reproduces what either mode produced |
| RootOverride.PrefixIrrelevant | ext/rustly_core/src/validation/engine.rs:336-340 | away from the root, the place of a validation shows only as a prefix of the reported paths |
| RootOverride.RootOverrideIsRewrite | ext/rustly_core/src/validation/engine.rs:336-340 | the root override is a rewrite: it equals path-independent validation of the schema whose top struct, through optionals, has the option as its policy |
| Locations.IssuesAreReal | ext/rustly_core/src/validation/engine.rs:247-453 | every issue path extends the current path and resolves in the input to a value at fault in the way code and meta say, or for a missing field to a dict without that key |
| KeyOrder.OrderIrrelevant | ext/rustly_core/src/validation/engine.rs:260-376 | inputs that agree up to dict order at any depth get the same multiset of issues, and outputs, complete or partial, that agree up to dict order |
| KeyOrder.MatchingCollect | ext/rustly_core/src/validation/engine.rs:276-283 | outcomes matched by distinct keys collect to the same issues and as many values in any order |
| KeyOrder.ExtrasAlike | ext/rustly_core/src/validation/engine.rs:344-367 | the extras kept depend on the entries up to order only |
| WorkBound.VisitsBounded | ext/rustly_core/src/validation/engine.rs:147-376 | validation of a value at a node makes at most `(id + 1) * size` node visits when struct nodes name fields apart |
| WorkBound.FoundFits | ext/rustly_core/src/validation/engine.rs:320-334 | distinct names look up disjoint parts of a dict |
| WorkBound.CompiledNamedApart | ext/rustly_core/src/schema/compiler.rs:185-200 | a document with distinct names compiles to nodes with distinct names |
| Paths.FormatPath | ext/rustly_core/src/validation/engine.rs:620-638 | the loop renders the path as specified; the input pass has the same function |
| Paths.RenderDecodes | ext/rustly_core/src/validation/engine.rs:620-638 | a parser recovers the segments from the text iff every key is non-empty and free of `.` and `[` |
| Paths.RenderInjective | ext/rustly_core/src/validation/input.rs:236-254 | on such paths rendering is injective |
| Paths.RenderAmbiguous | ext/rustly_core/src/validation/engine.rs:620-638 | each of the three conditions is needed: empty, dotted and bracketed keys render like other paths |
| RubyInput.Converter.ConvertValue | ext/rustly_core/src/validation/input.rs:93-136 | value or error as specified, and exactly the path stack that conversion leaves: the same on success, at least as long after an error |
| RubyInput.Converter.ConvertArray | ext/rustly_core/src/validation/input.rs:138-155 | the same for arrays: after an error the stack is the one the failing item left |
| RubyInput.ArrayLeavesIndex | ext/rustly_core/src/validation/input.rs:146-151 | an array that fails leaves the failing index on the stack |
| RubyInput.Converter.ConvertHash | ext/rustly_core/src/validation/input.rs:157-185 | the same for hashes: the first error stops the iteration and is returned |
| RubyInput.Converter.ConvertPair | ext/rustly_core/src/validation/input.rs:267-301 | the callback: key before value, and after the value, converted or not, exactly the top segment is popped |
| InputFaults.ConvertOwned | ext/rustly_core/src/validation/input.rs:83-91 | the value that reads kind by kind as the Ruby value, or an error that names the first fault: a key neither string nor symbol, an unsupported object, each by rendered place and class, or an integer beyond 64 bits |
| InputFaults.ConvertReads | ext/rustly_core/src/validation/input.rs:93-185 | conversion gives a value iff that value reads, kind by kind, as the Ruby value |
| InputFaults.ConvertFindsFirstFault | ext/rustly_core/src/validation/input.rs:93-185 | conversion fails with the first of all faults in traversal order, and only if there is one |
| InputFaults.ConvertIsExact | ext/rustly_core/src/validation/input.rs:93-185 | conversion succeeds iff every nested value and hash key is supported |
| InputFaults.FaultsAreReal | ext/rustly_core/src/validation/input.rs:212-234 | the location of a fault leads to the object at fault; for a bad key, to the hash that holds it |
| InputFaults.ConvertedShape | ext/rustly_core/src/validation/input.rs:212-301 | converted values contain no struct, and have distinct keys iff no hash holds both a string and a symbol of one text |
| Materializer.OwnedToRuby | ext/rustly_core/src/materialize.rs:141-192 | the heap gains only unfrozen new objects, and the result reads back as the value-level conversion, error included |
| Materializer.ListToRuby | ext/rustly_core/src/materialize.rs:152-162 | an array filled in place reads back as the converted items |
| Materializer.DictToRuby | ext/rustly_core/src/materialize.rs:194-205 | a hash filled in place reads back as the stores in order, with key errors before value errors |
| Materializer.StructToRuby | ext/rustly_core/src/materialize.rs:164-190 | a struct becomes the hash of its present fields under symbols, then its extras under strings |
| Materializer.FieldsToRuby | ext/rustly_core/src/materialize.rs:171-179 | the field loop stores exactly the present fields, or stops at the first error |
| Materializer.ExtrasToRuby | ext/rustly_core/src/materialize.rs:180-188 | the extras loop adds every extra, or stops at the first error |
| RubyHeap.HPutMeans | ext/rustly_core/src/materialize.rs:200-202 | a store is found under its key and changes no other; a known key keeps its place, a new one goes last |
| Materialize.HashHoldsLast | ext/rustly_core/src/materialize.rs:194-205 | however a hash was filled, it has each key once and under it what was stored last |
| RubyHeap.Heap.IvarSet | ext/rustly_core/src/materialize.rs:91-96 | setting a variable demands an unfrozen instance |
| RubyHeap.Heap.Freeze | ext/rustly_core/src/materialize.rs:224-228 | exactly one object is frozen |
| RubyHeap.Heap.DeepFreeze | ext/rustly_core/src/materialize.rs:230-254 | exactly the objects reachable through arrays and hashes are frozen, contents unchanged |
| RubyHeap.ReachIsLeast | ext/rustly_core/src/materialize.rs:230-254 | what is reachable is the least set with the object in it that has whatever its arrays and hashes have |
| RoundTrip.MaterializeIsExact | ext/rustly_core/src/materialize.rs:141-222 | conversion to Ruby succeeds iff no symbol, key or present field name holds a NUL |
| NameFaults.ToRubyRaisesFirst | ext/rustly_core/src/materialize.rs:141-222 | conversion to Ruby raises the first name with a NUL in the order names are met, dict keys before their values, field names and extra keys after |
| NameFaults.InstanceRaisesFirst | ext/rustly_core/src/materialize.rs:79-114 | making an instance raises the first thing in its way: planned fields, then extras |
| RoundTrip.MaterializedReadsBack | ext/rustly_core/src/materialize.rs:141-205 | converting a materialised output back gives the output with structs as dicts |
| RoundTrip.DictBecomesHash | ext/rustly_core/src/materialize.rs:194-205 | a dict becomes a hash of its entries in order, keyed by symbols |
| RoundTrip.StructBecomesHash | ext/rustly_core/src/materialize.rs:164-190 | a struct becomes a hash of its present fields in order under symbols, then its extras under strings |
| RoundTrip.FullCircle | ext/rustly_core/src/validation/engine.rs:289-448 | an input that validates in either mode, materialised, converted back and validated strictly, gives the same output again |
| Instances.BuildMaterializePlan | ext/rustly_core/src/schema/compiled.rs:112-135 | the plan lists the field names of a root that is a struct and is empty otherwise; a NUL in a name panics |
| Instances.BuildLookup | ext/rustly_core/src/materialize.rs:62-65 | the lookup holds the last index of every name |
| Instances.PlanRefinesDirect | ext/rustly_core/src/materialize.rs:79-114 | with distinct names the plan-driven stores build the hash that direct conversion of the struct gives, or fail with the same error |
| Instances.IvarsAreFields | ext/rustly_core/src/materialize.rs:79-99 | with distinct names the variables set are exactly the present fields, each with its own value |
| Instances.RunPlan | ext/rustly_core/src/materialize.rs:79-99 | the plan loop on the heap: the instance and attributes hash being filled read as specified |
| Instances.RunExtras | ext/rustly_core/src/materialize.rs:101-114 | extras are converted always and stored only with attributes; keys are checked only when stored |
| Instances.Complete | ext/rustly_core/src/materialize.rs:116-120 | `@attributes` is set last, replacing a field of that name |
| Instances.Seal | ext/rustly_core/src/materialize.rs:122-136 | Deep freezes everything reachable, Shallow only the instance and its attributes, None nothing; contents are kept |
| Instances.MaterializeInstance | ext/rustly_core/src/materialize.rs:46-139 | the instance holds what was specified and is frozen as the mode promises; older objects are untouched and no frozen object is written to |
| Pipeline.Compile | ext/rustly_core/src/schema/compiler.rs:25-27 | nodes faithful to the type expression, and the plan made from them |
| Pipeline.CompileDocument | ext/rustly_core/src/schema/compiler.rs:20-30 | from a parsed document: the first of its errors iff it is not well formed, otherwise nodes faithful to the parsed type and their plan |
| Pipeline.Build | ext/rustly_core/src/lib.rs:319-361 | convert, validate and materialise: the error of the first step that fails, or a sealed instance of the output; the output is never missing |
| BuiltObjects.VariablesOfBuild | ext/rustly_core/src/materialize.rs:79-120 | the variables of the built object are those of the given fields, if the root is a struct, and `@attributes` iff stored |
| BuiltObjects.StructObjectHoldsFields | ext/rustly_core/src/materialize.rs:79-120 | built for a struct root, every given field has its own value in its variable iff attributes are not stored over a given field of that name |
| BuiltObjects.OtherObjectHoldsFields | ext/rustly_core/src/schema/compiled.rs:117 | built for any other root, iff no field is given, or the only one is called attributes and its value is written as the extras are |
| BuildConditions.OtherObjectByInput | ext/rustly_core/src/schema/compiled.rs:117 | the same read off the input, where keys are not confused: that value is an empty hash, or a struct with no name given and just these extras |
| BuildConditions.BuildSucceedsExactly | ext/rustly_core/src/lib.rs:319-361 | a build succeeds iff the input is supported, is accepted as a struct, and yields one with no NUL in a planned value, an extra or, if stored, its key |
| BuildConditions.StructBuildSucceeds | ext/rustly_core/src/lib.rs:319-361 | for a struct root with attributes stored, iff the input is supported and accepted and no name in the output holds a NUL |
| BuildConditions.BuildFailsRightly | ext/rustly_core/src/lib.rs:319-361 | a failed build names the first fault of the input, or all issues of the value read from it, or the first thing in the way of an instance |
| BuildConditions.InstanceIsExact | ext/rustly_core/src/materialize.rs:46-139 | an instance can be made iff the root is a struct and no NUL obstructs it |
| BuiltObjects.NoFieldIsTheHash | ext/rustly_core/src/materialize.rs:79-120 | the attributes hash is none of the fields it contains |
| BuiltObjects.AttributesOverwritten | ext/rustly_core/src/materialize.rs:116-120 | a struct whose field called attributes loses its variable to the hash |
| BuiltObjects.OptionalRootSetsNothing | ext/rustly_core/src/schema/compiled.rs:117 | an optional struct root whose given field is set nowhere |
| Pipeline.StructBuildStoresOutput | ext/rustly_core/src/lib.rs:344-355 | for a struct root with attributes stored, `@attributes` is the conversion of the whole validated output |
| Payload.OtherBuildStoresExtras | ext/rustly_core/src/schema/compiled.rs:117 | for any other root, `@attributes` is the hash of the kept extras alone |
| Payload.AttributesAreRawPayload | ext/rustly_core/src/materialize.rs:79-120 | for every root with distinct names, `@attributes` equals the raw input, order included, iff that is verbatim (every value of its kind, declared names first as symbols in schema order, kept extras after them as strings) and, unless the root is itself a struct, all its keys are strings |
| Payload.OptionalRootLosesPayload | ext/rustly_core/src/schema/compiled.rs:117 | a verbatim input to an optional struct root, of which nothing is stored |
| Payload.PayloadNotKept | ext/rustly_core/src/materialize.rs:79-120 | an integer given as text is stored as the integer |
| Payload.VerbatimIff | ext/rustly_core/src/materialize.rs:141-205 | under a schema with distinct names, at any depth, an input becomes its own output iff it is verbatim |
| Payload.PlainIff | ext/rustly_core/src/materialize.rs:141-205 | an unchecked value comes back unchanged iff all hash keys in it are distinct symbols |
| Vocabulary.FloatBounds | ext/rustly_core/src/validation/engine.rs:514-539 | float bounds on the real line: each violated one is reported with its number, a value equal to its bound violates none, NaN none, and infinities as they lie |
| Vocabulary.FiniteBetween | ext/rustly_core/src/validation/engine.rs:519-538 | between finite bounds there is no issue iff the value lies within them, ends included |
| Vocabulary.BoolTexts | ext/rustly_core/src/validation/engine.rs:382-390 | the texts read as booleans are true and false in any case, 1 and 0 |
| Vocabulary.Formats | ext/rustly_core/src/validation/engine.rs:580-659 | an email has an at-sign, a UUID its hexadecimal groups, a web address its scheme |
| Vocabulary.FormatReported | ext/rustly_core/src/validation/engine.rs:487-491 | a broken format is reported under its own name |
| Vocabulary.SizeShown | ext/rustly_core/src/validation/engine.rs:546-553 | a size bound is shown as a signed number, the upper half negative |
| Vocabulary.RootRefused | ext/rustly_core/src/materialize.rs:54-57 | a root that is no struct is refused by the name of its kind |
| Vocabulary.NumbersRead | ext/rustly_core/src/validation/value.rs:47-53 | a JSON number is an integer iff it is whole and fits 64 signed bits |
| Vocabulary.WholeNumbers | ext/rustly_core/src/schema/compiler.rs:607-626 | schema integers and sizes take whole numbers in their range and no others |
| Vocabulary.ScalarsWritten | ext/rustly_core/src/materialize.rs:141-151 | each scalar becomes the Ruby object of its kind; a symbol with a NUL fails |
| JsonInput.FromJson | ext/rustly_core/src/validation/value.rs:43-75 | the value is the document, members in some order |
| JsonInput.JsonShape | ext/rustly_core/src/validation/value.rs:65-73 | JSON input contains no struct and repeats no key |
| JsonInput.ReadingsAlike | ext/rustly_core/src/validation/value.rs:65-73 | any two readings differ only in key order |
| JsonInput.JsonOrderIrrelevant | ext/rustly_core/src/validation/value.rs:65-73 | the order in which members are read does not change acceptance, outputs up to order, or the multiset of issues |
| JsonInput.ValidateJson | ext/rustly_core/src/validation/engine.rs:75-98 | a document validates as one of its readings; text that does not parse is one issue at the root |
| SchemaParser.ParseTypeExpr | ext/rustly_core/src/schema/compiler.rs:204-228 | parsing terminates on every document, by the combined weight of expression and field options; its enums are non-empty and duplicate-free, and its bounds finite if conversions are |
| TypeNames.KindOfName | ext/rustly_core/src/schema/compiler.rs:236-281 | each of the sixteen type names, in whatever case, stands for one kind, and no other name for any |
| TypeNames.PlainNames | ext/rustly_core/src/schema/compiler.rs:236-281 | any, bool and boolean, sym and symbol, inline or bare, parse to their type whatever the options |
| TypeNames.IntNames | ext/rustly_core/src/schema/compiler.rs:239-244 | int and integer parse with exactly the bounds given |
| TypeNames.FloatNames | ext/rustly_core/src/schema/compiler.rs:245-250 | float and double parse with exactly the bounds given |
| TypeNames.IntegerBounds | ext/rustly_core/src/schema/compiler.rs:613-620 | whole numbers too are float bounds, each converted |
| TypeNames.StringNames | ext/rustly_core/src/schema/compiler.rs:251-256 | str and string parse with exactly the sizes and format given |
| TypeNames.EnumName | ext/rustly_core/src/schema/compiler.rs:352-383 | enum takes its members from values or, without these, from in |
| TypeNames.ListName | ext/rustly_core/src/schema/compiler.rs:385-404 | list takes its element type from of or, without it, from item |
| TypeNames.DictName | ext/rustly_core/src/schema/compiler.rs:406-425 | dict takes its value type from values or, without it, from value |
| TypeNames.OptionalName | ext/rustly_core/src/schema/compiler.rs:427-438 | optional takes its inner type from of |
| TypeNames.StructName | ext/rustly_core/src/schema/compiler.rs:440-460 | struct takes its fields, and its policy, which is to forbid unless given |
| TypeNames.OtherNames | ext/rustly_core/src/schema/compiler.rs:276-279 | any other name is an unknown type, told in lower case |
| CompileErrors.TypeGives | ext/rustly_core/src/schema/compiler.rs:204-655 | a type expression that does not parse gives the first of its errors, by path and reason, in the order they are met |
| CompileErrors.DocumentGives | ext/rustly_core/src/schema/compiler.rs:55-60 | a document gives the first of its errors, and only if it has one |
| WellFormed.DocumentParsesIfOk | ext/rustly_core/src/schema/compiler.rs:55-60 | a document parses iff it satisfies a declarative predicate |
| WellFormed.ParsesIfOk | ext/rustly_core/src/schema/compiler.rs:204-228 | a type expression parses under field options iff it is well formed under them |
| SchemaParser.MergeWeight | ext/rustly_core/src/schema/compiler.rs:639-655 | merging options never weighs more than the two maps together |
| SchemaParser.InlineWeight | ext/rustly_core/src/schema/compiler.rs:215-216 | the inline options of an object weigh less than the object |
| SchemaParser.ArrayFits | ext/rustly_core/src/schema/compiler.rs:288-350 | whatever an array spelling goes on to parse, merged options included, weighs less than the array with its field options |
| SchemaParser.MergeMaps | ext/rustly_core/src/schema/compiler.rs:639-655 | the loops merge two maps, inline options overriding outer ones |
| SchemaParser.InlineMapWithout | ext/rustly_core/src/schema/compiler.rs:628-637 | the loop copies a map without the excluded keys |
| SchemaParser.CollectVariants | ext/rustly_core/src/schema/compiler.rs:367-382 | the loop finds the first bad member, or lists each member once where first seen |
| SchemaParser.EnumKeepsMembers | ext/rustly_core/src/schema/compiler.rs:352-383 | an enum parses iff its source is a non-empty array of strings, and has those members once each in order of first occurrence |
| SchemaParser.ParseFieldsArray | ext/rustly_core/src/schema/compiler.rs:462-474 | the loop parses every entry in order, or fails with the first error |
| Spelling.SpellingParses | ext/rustly_core/src/schema/compiler.rs:204-530 | every type with proper enums and finite bounds has a document that parses to exactly it: no option, name or presence is lost or mixed up |
| Spelling.DocumentsSayExactly | ext/rustly_core/src/schema/compiler.rs:55-60 | the types that documents can express are exactly those with non-empty, duplicate-free enums and finite bounds, given that integers convert to finite floats as in Rust |
| SurfaceForms.ListSpellingsAgree | ext/rustly_core/src/schema/compiler.rs:283-404 | a list parses to the same result as array, object or bare name with field options; inline options win |
| SurfaceForms.DictSpellingsAgree | ext/rustly_core/src/schema/compiler.rs:283-425 | the same for dicts |
| SurfaceForms.EnumSpellingsAgree | ext/rustly_core/src/schema/compiler.rs:283-383 | the same for enums |
| SurfaceForms.StructSpellingsAgree | ext/rustly_core/src/schema/compiler.rs:283-460 | the same for structs |
| SurfaceForms.OptionalSpellings | ext/rustly_core/src/schema/compiler.rs:299-308 | the array spelling of an optional hands the field options to the inner type, the object spelling does not |
| SurfaceForms.OptionalSpellingsAgree | ext/rustly_core/src/schema/compiler.rs:427-438 | without field options known to any type, the two spellings agree for every inner type, up to the path of an error |
| OptionalForms.OptionalsAgreeExactly | ext/rustly_core/src/schema/compiler.rs:299-308 | for every inner type and field options, the two spellings of an optional give the same type or both fail iff: the inner type is well formed by itself and not swayed by the options, or not well formed by itself and not completed by them |
| OptionalForms.CompleteOptionalsAgree | ext/rustly_core/src/schema/compiler.rs:299-308 | where the inner type parses by itself, they agree, reason of an error included, iff the field options do not sway it |
| OptionalForms.ListCompleted | ext/rustly_core/src/schema/compiler.rs:299-308 | a bare list completed by field options parses in the array spelling only |
| OptionalForms.ExpressionSwayed | ext/rustly_core/src/schema/compiler.rs:204-350 | a type expression that parses by itself parses to the same under field options iff these add no option of its own and displace nothing inline by something else |
| OptionalForms.BareContainersIncomplete | ext/rustly_core/src/schema/compiler.rs:230-281 | a bare enum, list, dict, optional or struct name does not parse by itself |
| SurfaceForms.OptionalSpellingsExact | ext/rustly_core/src/schema/compiler.rs:299-308 | for a bare scalar, enum or unknown name, parsing by itself or not, they agree iff the field options hold none of the options of that name |
| SurfaceForms.OptionalSpellingsDiffer | ext/rustly_core/src/schema/compiler.rs:436 | a field-option minimum reaches the inner integer through one spelling only |
| SurfaceForms.PathOnlyInErrors | ext/rustly_core/src/schema/compiler.rs:204-228 | the place of an expression shows only in error paths, and only the twelve known field options matter |

## Left out

- Ruby C-API plumbing (typed data, GC guards, symbol tables, raising), GVL release and `Ractor` safety: foreign code without a protocol of its own.
- Bump arena, lifetime casts and `Send` claims: memory management; a cast is the identity here.
- The JSON text parser, trimming, number parsing and integer-to-float conversion: arbitrary total functions.
- IEEE rounding and the sign of zero: only comparison and equality of floats matter to the code. NaN equals itself here, as under the ordered floats of the schema.
- Strings that are not valid UTF-8: the code copies bytes unchecked; the model has characters.
- Lower-casing of type names beyond ASCII: no such letter makes another type name, but the name quoted in an unknown-type error may differ.
- Error message texts: each is a reason with the quoted data; debug renderings of JSON values are dropped.
- Choice of input mode (`prepare_input`), option parsing, schema summary, schema id counter, error sets and the Ruby wrapper: no hard property.
- `MaterializePlan::get` and its index: nothing in the extension calls it.
- Raising of `RangeError` for integers beyond 64 bits: an error without a location, `IntegerOutOfRange`.
- Instances of `Array` or `Hash` subclasses: deep freezing would walk their elements; the class built is taken to be a plain one.
- Identity of hash string keys: Ruby copies and freezes them when stored, so the heap keeps their text.
- A NULL `@attributes` name in `materialize_instance`: the extension always passes one.
- Unwinding of `expect` on field names with a NUL: `Instances.BuildMaterializePlan` returns a `Panic` instead.
- HashConsing.SchemaArena.Alloc: demands the bound that the source asserts in debug builds; truncation of ids in release builds is not modelled, and `HashConsing.BuildIr` asks for at most `u32::MAX` distinct sub-expressions.
- JsonInput.FromJson: leaves the order of object members open, because the map type decides it; `JsonInput.JsonOrderIrrelevant` shows that it does not matter.
- Absent and empty `extras` of a struct: one value, since an empty list of extras never arises.
- Option maps that `apply_*_constraints` consume in place are read as values; what is removed is never read again.
- OptionalForms.OptionalsAgreeExactly: two failures agree in it; whether they give the same reason is left open.
- Ruby arrays and hashes that contain themselves: Ruby values are finite trees here; on such input the conversion recurses without end, and `InputFaults.ConvertIsExact` is silent.
- Payload.AttributesAreRawPayload: compares hashes with their order, which Ruby's own hash equality ignores.
- Symbol encodings: symbols are interned from UTF-8 bytes as C strings; whether Ruby takes a name outside ASCII, or raises an encoding error, is not part of this model, so `RoundTrip.MaterializeIsExact` is about NUL only.
