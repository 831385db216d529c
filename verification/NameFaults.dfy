/** What is wrong with an output that cannot be made into Ruby objects, in the
    order in which it is met, and the error that is raised: the first. */
module NameFaults {
  import opened Wrappers
  import opened Values
  import opened Ruby
  import opened InputFaults
  import opened NormalForms
  import opened Materialize
  import opened Instances

  predicate HasNul(name: string) {
    exists k | 0 <= k < |name| :: name[k] as int == 0
  }

  function SymbolFaults(name: string): seq<MaterializeError> {
    if HasNul(name) then [InvalidSymbol(name)] else []
  }

  function KeyFaults(name: string): seq<MaterializeError> {
    if HasNul(name) then [InvalidKey(name)] else []
  }

  /** A dict entry: its key and then its value. */
  function EntryFaults(e: Entry): seq<MaterializeError>
    decreases e
  {
    SymbolFaults(e.key) + FaultsOf(e.value)
  }

  /** A field, if present: its value and then its name. */
  function SlotFaults(name: string, slot: Option<Value>): seq<MaterializeError>
    decreases slot
  {
    match slot
    case Some(v) => FaultsOf(v) + SymbolFaults(name)
    case None => []
  }

  /** An extra: its value and then its key. */
  function ExtraFaults(e: Entry): seq<MaterializeError>
    decreases e
  {
    FaultsOf(e.value) + KeyFaults(e.key)
  }

  function ItemsFaults(items: seq<Value>): seq<seq<MaterializeError>> {
    seq(|items|, i requires 0 <= i < |items| => FaultsOf(items[i]))
  }

  function EntriesFaults(entries: seq<Entry>): seq<seq<MaterializeError>> {
    seq(|entries|, i requires 0 <= i < |entries| => EntryFaults(entries[i]))
  }

  function SlotsFaults(names: seq<string>, fields: seq<Option<Value>>): seq<seq<MaterializeError>>
    decreases fields
  {
    seq(Shorter(|names|, |fields|), i requires 0 <= i < Shorter(|names|, |fields|) => SlotFaults(names[i], fields[i]))
  }

  function ExtrasFaults(extras: seq<Entry>): seq<seq<MaterializeError>> {
    seq(|extras|, i requires 0 <= i < |extras| => ExtraFaults(extras[i]))
  }

  /** All the faults of an output, in the order they are met. */
  function FaultsOf(v: Value): seq<MaterializeError> {
    match v
    case Symbol(name) => SymbolFaults(name)
    case List(items) => Concat(ItemsFaults(items), |items|)
    case Dict(entries) => Concat(EntriesFaults(entries), |entries|)
    case Struct(names, fields, extras) =>
      Concat(SlotsFaults(names, fields), |SlotsFaults(names, fields)|) + Concat(ExtrasFaults(extras), |extras|)
    case _ => []
  }

  /** A result that raises the first of these errors, or none if there is none. */
  predicate Raises<T>(r: Result<T, MaterializeError>, errors: seq<MaterializeError>) {
    if errors == [] then r.Success? else r == Failure(errors[0])
  }

  lemma {:induction false} GatherRaises<T>(results: seq<Result<T, MaterializeError>>,
                                           parts: seq<seq<MaterializeError>>, n: nat)
    requires n <= |results| == |parts| && forall i | 0 <= i < |parts| :: Raises(results[i], parts[i])
    ensures Raises(Gather(results, n), Concat(parts, n))
  {
    if n > 0 {
      GatherRaises(results, parts, n - 1);
    }
  }

  lemma {:induction false} NulMeans(name: string)
    ensures NulFree(name) <==> !HasNul(name)
  {
    if k :| 0 <= k < |name| && name[k] as int == 0 {
      assert name[k] == '\0';
    }
  }

  lemma {:induction false} StructRaises(v: Value)
    requires v.Struct?
    ensures Raises(ToRuby(v), FaultsOf(v))
    decreases v, 0
  {
    var fs, es := FieldPuts(v.names, v.fields), ExtraPuts(v.extras);
    var slots, extras := SlotsFaults(v.names, v.fields), ExtrasFaults(v.extras);
    forall i | 0 <= i < |fs| ensures Raises(fs[i], slots[i]) {
      assert fs[i] == FieldPut(v.names[i], v.fields[i]) && slots[i] == SlotFaults(v.names[i], v.fields[i]);
      NulMeans(v.names[i]);
      if v.fields[i].Some? {
        ToRubyRaisesFirst(v.fields[i].value);
      }
    }
    forall i | 0 <= i < |es| ensures Raises(es[i], extras[i]) {
      assert es[i] == ExtraPut(v.extras[i]) && extras[i] == ExtraFaults(v.extras[i]);
      NulMeans(v.extras[i].key);
      ToRubyRaisesFirst(v.extras[i].value);
    }
    GatherRaises(fs, slots, |fs|);
    GatherRaises(es, extras, |es|);
  }

  /** Conversion to Ruby raises the first fault, and only if there is one. */
  lemma {:induction false} ToRubyRaisesFirst(v: Value)
    ensures Raises(ToRuby(v), FaultsOf(v))
    decreases v, 1
  {
    match v
    case Symbol(name) => NulMeans(name);
    case List(items) =>
      forall i | 0 <= i < |items| ensures Raises(Items(items)[i], ItemsFaults(items)[i]) {
        assert Items(items)[i] == ToRuby(items[i]) && ItemsFaults(items)[i] == FaultsOf(items[i]);
        ToRubyRaisesFirst(items[i]);
      }
      GatherRaises(Items(items), ItemsFaults(items), |items|);
    case Dict(entries) =>
      forall i | 0 <= i < |entries| ensures Raises(DictPuts(entries)[i], EntriesFaults(entries)[i]) {
        assert DictPuts(entries)[i] == DictPut(entries[i]) && EntriesFaults(entries)[i] == EntryFaults(entries[i]);
        NulMeans(entries[i].key);
        ToRubyRaisesFirst(entries[i].value);
      }
      GatherRaises(DictPuts(entries), EntriesFaults(entries), |entries|);
    case Struct(_, _, _) => StructRaises(v);
    case _ =>
  }

  /** A planned name sets its value, if the struct has one; it is a symbol already. */
  function PlannedFaults(root: Value, name: string): seq<MaterializeError>
    requires root.Struct?
  {
    match PlanValue(root.names, root.fields, name)
    case Some(v) => FaultsOf(v)
    case None => []
  }

  function PlanFaults(plan: seq<string>, root: Value): seq<seq<MaterializeError>>
    requires root.Struct?
  {
    seq(|plan|, i requires 0 <= i < |plan| => PlannedFaults(root, plan[i]))
  }

  /** The key of an extra is looked at only where it is stored. */
  function StepFaults(e: Entry, store: bool): seq<MaterializeError> {
    FaultsOf(e.value) + if store then KeyFaults(e.key) else []
  }

  function StepsFaults(extras: seq<Entry>, store: bool): seq<seq<MaterializeError>> {
    seq(|extras|, i requires 0 <= i < |extras| => StepFaults(extras[i], store))
  }

  /** All that stands in the way of an instance, in order: the planned fields and
      then the extras. */
  function InstanceFaults(plan: seq<string>, root: Value, store: bool): seq<MaterializeError>
    requires root.Struct?
  {
    Concat(PlanFaults(plan, root), |plan|) + Concat(StepsFaults(root.extras, store), |root.extras|)
  }

  /** Making an instance raises the first of that, and only if there is any. */
  lemma {:induction false} InstanceRaisesFirst(plan: seq<string>, root: Value, store: bool)
    requires root.Struct?
    ensures Raises(InstanceOf(plan, root, store), InstanceFaults(plan, root, store))
  {
    var puts, steps := PlanPuts(plan, root.names, root.fields), ExtraSteps(root.extras, store);
    var planned, extras := PlanFaults(plan, root), StepsFaults(root.extras, store);
    forall i | 0 <= i < |plan| ensures Raises(puts[i], planned[i]) {
      assert puts[i] == PlanPut(root.names, root.fields, plan[i]) && planned[i] == PlannedFaults(root, plan[i]);
      if PlanValue(root.names, root.fields, plan[i]).Some? {
        ToRubyRaisesFirst(PlanValue(root.names, root.fields, plan[i]).value);
      }
    }
    forall k | 0 <= k < |root.extras| ensures Raises(steps[k], extras[k]) {
      assert steps[k] == ExtraStep(root.extras[k], store) && extras[k] == StepFaults(root.extras[k], store);
      NulMeans(root.extras[k].key);
      ToRubyRaisesFirst(root.extras[k].value);
    }
    GatherRaises(puts, planned, |plan|);
    GatherRaises(steps, extras, |root.extras|);
  }
}
