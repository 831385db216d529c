/** Building the instance a caller gets: instance variables from the schema's
    plan, the optional `@attributes` hash, and freezing (`materialize.rs`
    and the plan of `schema/compiled.rs`). */
module Instances {
  import opened Wrappers
  import opened Values
  import opened Schema
  import opened Ruby
  import opened Materialize
  import opened RubyHeap
  import opened Materializer

  datatype FreezeMode = Deep | Shallow | Unfrozen

  /** What `CString::new(..).expect(..)` panics over. */
  datatype Panic = InvalidFieldName(name: string)

  /** The plan lists the field names of a root that is itself a struct; any
      other root, an optional struct included, has an empty plan. */
  method BuildMaterializePlan(ir: SchemaIr) returns (r: Result<seq<string>, Panic>)
    requires ir.root < |ir.nodes|
    ensures match ir.nodes[ir.root]
            case Struct(fields, _) =>
              if forall i | 0 <= i < |fields| :: NulFree(fields[i].name)
              then r == Success(NodeNames(fields))
              else r.Failure? && !NulFree(r.error.name)
            case _ => r == Success([])
  {
    var entries := [];
    if ir.nodes[ir.root].Struct? {
      var fields := ir.nodes[ir.root].fields;
      for n := 0 to |fields|
        invariant forall i | 0 <= i < n :: NulFree(fields[i].name)
        invariant |entries| == n && forall i | 0 <= i < n :: entries[i] == fields[i].name
      {
        if !NulFree(fields[n].name) {
          return Failure(InvalidFieldName(fields[n].name));
        }
        entries := entries + [fields[n].name];
      }
      assert entries == NodeNames(fields);
    }
    r := Success(entries);
  }

  /** Index of the last field with a name: later ones overwrite. */
  function LastIndex(names: seq<string>, name: string): Option<nat> {
    if names == [] then None
    else if names[|names| - 1] == name then Some(|names| - 1)
    else LastIndex(names[..|names| - 1], name)
  }

  ghost predicate Indexes(lookup: map<string, nat>, names: seq<string>) {
    forall name :: LastIndex(names, name) == if name in lookup then Some(lookup[name]) else None
  }

  method BuildLookup(names: seq<string>) returns (lookup: map<string, nat>)
    ensures Indexes(lookup, names)
  {
    lookup := map[];
    for n := 0 to |names|
      invariant Indexes(lookup, names[..n])
    {
      assert names[..n + 1][..n] == names[..n];
      lookup := lookup[names[n] := n];
    }
    assert names[..|names|] == names;
  }

  /** The value the plan sets for a name, if the struct has one. */
  function PlanValue(names: seq<string>, fields: seq<Option<Value>>, name: string): Option<Value> {
    match LastIndex(names, name)
    case Some(i) => if i < |fields| then fields[i] else None
    case None => None
  }

  function PlanPut(names: seq<string>, fields: seq<Option<Value>>, name: string)
    : Result<Option<RPair>, MaterializeError>
  {
    match PlanValue(names, fields, name)
    case None => Success(None)
    case Some(v) =>
      match ToRuby(v)
      case Failure(f) => Failure(f)
      case Success(x) => Success(Some(RPair(RSymbol(name), x)))
  }

  function PlanPuts(plan: seq<string>, names: seq<string>, fields: seq<Option<Value>>)
    : seq<Result<Option<RPair>, MaterializeError>>
  {
    seq(|plan|, i requires 0 <= i < |plan| => PlanPut(names, fields, plan[i]))
  }

  /** Extras are converted even when nothing stores them; their keys are not. */
  function ExtraStep(e: Entry, store: bool): Result<RPair, MaterializeError> {
    if store then ExtraPut(e)
    else
      match ToRuby(e.value)
      case Failure(f) => Failure(f)
      case Success(x) => Success(RPair(RString(e.key), x))
  }

  function ExtraSteps(extras: seq<Entry>, store: bool): seq<Result<RPair, MaterializeError>> {
    seq(|extras|, i requires 0 <= i < |extras| => ExtraStep(extras[i], store))
  }

  function IvarName(put: RPair): string {
    match put.key
    case RSymbol(name) => "@" + name
    case _ => "@"
  }

  /** Instance variables after the first `n` stores. */
  function Ivars(puts: seq<RPair>, n: nat): map<string, RValue>
    requires n <= |puts|
  {
    if n == 0 then map[] else Ivars(puts, n - 1)[IvarName(puts[n - 1]) := puts[n - 1].value]
  }

  /** What an instance holds: its variables, and the stores that filled its
      attributes hash. */
  datatype Instance = Instance(ivars: map<string, RValue>, stored: seq<RPair>)

  function InstanceOf(plan: seq<string>, root: Value, store: bool): Result<Instance, MaterializeError> {
    if !root.Struct? then Failure(UnsupportedRoot(TypeName(root)))
    else
      match Gather(PlanPuts(plan, root.names, root.fields), |plan|)
      case Failure(f) => Failure(f)
      case Success(slots) =>
        var puts := Somes(slots, |slots|);
        match Gather(ExtraSteps(root.extras, store), |root.extras|)
        case Failure(f) => Failure(f)
        case Success(extras) => Success(Instance(Ivars(puts, |puts|), puts + extras))
  }

  lemma {:induction false} LastIndexDistinct(names: seq<string>, i: nat)
    requires Distinct(names) && i < |names|
    ensures LastIndex(names, names[i]) == Some(i)
  {
    if i < |names| - 1 {
      assert names[i] != names[|names| - 1];
      LastIndexDistinct(names[..|names| - 1], i);
    }
  }

  /** With distinct names and the schema's own plan, the plan-driven build
      stores exactly what converting the whole struct at once stores: it fails
      with the same error, or `@attributes` is the hash of the struct. */
  lemma PlanRefinesDirect(root: Value)
    requires root.Struct? && |root.names| == |root.fields|
    requires Distinct(root.names) && forall i | 0 <= i < |root.names| :: NulFree(root.names[i])
    ensures match InstanceOf(root.names, root, true)
            case Failure(f) => ToRuby(root) == Failure(f)
            case Success(instance) => ToRuby(root) == Success(HashOf(instance.stored))
  {
    var planned, direct := PlanPuts(root.names, root.names, root.fields), FieldPuts(root.names, root.fields);
    forall i | 0 <= i < |root.names| ensures planned[i] == direct[i] {
      assert planned[i] == PlanPut(root.names, root.fields, root.names[i]);
      assert direct[i] == FieldPut(root.names[i], root.fields[i]);
      LastIndexDistinct(root.names, i);
    }
    assert planned == direct;
    assert ExtraSteps(root.extras, true) == ExtraPuts(root.extras);
  }

  /** The names of the fields that are present. */
  ghost function PresentIvars(root: Value, n: nat): set<string>
    requires root.Struct? && n <= |root.names| && n <= |root.fields|
  {
    set i | 0 <= i < n && root.fields[i].Some? :: "@" + root.names[i]
  }

  lemma {:induction false} IvarsPrefix(puts: seq<RPair>, more: seq<RPair>, n: nat)
    requires n <= |puts|
    ensures Ivars(puts + more, n) == Ivars(puts, n)
  {
    if n > 0 {
      IvarsPrefix(puts, more, n - 1);
      assert (puts + more)[n - 1] == puts[n - 1];
    }
  }

  lemma IvarsSnoc(puts: seq<RPair>, put: RPair)
    ensures Ivars(puts + [put], |puts| + 1) == Ivars(puts, |puts|)[IvarName(put) := put.value]
  {
    IvarsPrefix(puts, [put], |puts|);
  }

  lemma IvarNamesApart(names: seq<string>, i: nat, j: nat)
    requires Distinct(names) && i < j < |names|
    ensures "@" + names[i] != "@" + names[j]
  {
    assert ("@" + names[i])[1..] == names[i] && ("@" + names[j])[1..] == names[j];
  }

  /** Each present field among the first `n` has its variable. */
  ghost predicate HoldsFields(ivars: map<string, RValue>, root: Value, n: nat)
    requires root.Struct? && n <= |root.names| && n <= |root.fields|
  {
    && ivars.Keys == PresentIvars(root, n)
    && forall i | 0 <= i < n && root.fields[i].Some? ::
         && "@" + root.names[i] in ivars
         && ToRuby(root.fields[i].value) == Success(ivars["@" + root.names[i]])
  }

  lemma HoldsNext(ivars: map<string, RValue>, root: Value, n: nat, x: RValue)
    requires root.Struct? && n < |root.names| == |root.fields| && Distinct(root.names)
    requires root.fields[n].Some? && ToRuby(root.fields[n].value) == Success(x)
    requires HoldsFields(ivars, root, n)
    ensures HoldsFields(ivars["@" + root.names[n] := x], root, n + 1)
  {
    forall i | 0 <= i < n ensures "@" + root.names[i] != "@" + root.names[n] {
      IvarNamesApart(root.names, i, n);
    }
    assert PresentIvars(root, n + 1) == PresentIvars(root, n) + {"@" + root.names[n]};
  }

  /** With distinct names, the plan finds each field's own slot. */
  lemma PlanFindsOwn(root: Value, i: nat, slot: Option<RPair>)
    requires root.Struct? && |root.names| == |root.fields| && Distinct(root.names) && i < |root.names|
    requires PlanPut(root.names, root.fields, root.names[i]) == Success(slot)
    ensures slot.Some? <==> root.fields[i].Some?
    ensures slot.Some? ==> IvarName(slot.value) == "@" + root.names[i]
    ensures slot.Some? ==> ToRuby(root.fields[i].value) == Success(slot.value.value)
  {
    LastIndexDistinct(root.names, i);
  }

  /** With distinct names, exactly the present fields become variables, each
      holding its own value. */
  lemma {:induction false} IvarsAreFields(root: Value, slots: seq<Option<RPair>>, n: nat)
    requires root.Struct? && |root.names| == |root.fields| == |slots| && Distinct(root.names) && n <= |slots|
    requires forall i | 0 <= i < |slots| :: PlanPut(root.names, root.fields, root.names[i]) == Success(slots[i])
    ensures HoldsFields(Ivars(Somes(slots, n), |Somes(slots, n)|), root, n)
  {
    if n > 0 {
      var last := n - 1;
      IvarsAreFields(root, slots, last);
      assert PlanPut(root.names, root.fields, root.names[last]) == Success(slots[last]);
      PlanFindsOwn(root, last, slots[last]);
      var front := Somes(slots, last);
      if root.fields[last].Some? {
        assert Somes(slots, n) == front + [slots[last].value];
        IvarsSnoc(front, slots[last].value);
        HoldsNext(Ivars(front, |front|), root, last, slots[last].value.value);
      } else {
        assert PresentIvars(root, n) == PresentIvars(root, last);
      }
    } else {
      assert PresentIvars(root, 0) == {};
    }
  }

  ghost predicate AllFrozen(objs: seq<Obj>, v: Val)
    requires Ordered(objs) && Above(v, -1, |objs|)
  {
    forall b | b in Reach(objs, v) :: b < |objs| && objs[b].frozen
  }

  /** Objects from `lo` on keep their contents and are never thawed. */
  ghost predicate Kept(objs: seq<Obj>, more: seq<Obj>, lo: nat) {
    && SameFrom(objs, more, lo)
    && forall b | lo <= b < |objs| && objs[b].frozen :: more[b].frozen
  }

  lemma AllFrozenKept(objs: seq<Obj>, more: seq<Obj>, lo: nat, v: Val)
    requires Ordered(objs) && Ordered(more) && Kept(objs, more, lo)
    requires Above(v, lo - 1, |objs|) && AllFrozen(objs, v)
    ensures AllFrozen(more, v)
  {
    ReachFrame(objs, more, lo, v);
    forall b | b in Reach(objs, v) ensures b < |more| && more[b].frozen {
      ReachAbove(objs, v, b);
      assert objs[b].frozen;
    }
  }

  /** Converts a value and, in deep mode, freezes all of it. */
  method FreshValue(heap: Heap, v: Value, mode: FreezeMode) returns (r: Result<Val, MaterializeError>)
    requires Ordered(heap.objs)
    modifies heap
    ensures old(heap.objs) <= heap.objs && Ordered(heap.objs)
    ensures Made(heap.objs, |old(heap.objs)|, r, ToRuby(v))
    ensures mode.Deep? && r.Success? ==> AllFrozen(heap.objs, r.value)
    ensures !mode.Deep? ==> forall b | |old(heap.objs)| <= b < |heap.objs| :: !heap.objs[b].frozen
  {
    r := OwnedToRuby(heap, v);
    if mode.Deep? && r.Success? {
      ghost var objs := heap.objs;
      ghost var reach := Reach(objs, r.value);
      forall b | b in reach ensures |old(heap.objs)| <= b {
        ReachAbove(objs, r.value, b);
      }
      heap.DeepFreeze(r.value);
      FreezeAllOrdered(objs, reach);
      ReadBackFrame(objs, heap.objs, 0, r.value);
      ReachFreezeAll(objs, reach, r.value);
      FrozenAfter(objs, r.value);
    }
  }

  lemma FrozenAfter(objs: seq<Obj>, v: Val)
    requires Ordered(objs) && Above(v, -1, |objs|) && Ordered(FreezeAll(objs, Reach(objs, v)))
    ensures AllFrozen(FreezeAll(objs, Reach(objs, v)), v)
  {
    ReachFreezeAll(objs, Reach(objs, v), v);
    forall b | b in Reach(objs, v) ensures b < |objs| {
      ReachAbove(objs, v, b);
    }
  }

  /** The instance under construction: at `a`, unfrozen, its variables reading
      as `ivars` and, in deep mode, frozen through. Their values sit above
      `lo`, the last of the objects that are still being filled. */
  ghost predicate Filling(objs: seq<Obj>, a: nat, lo: nat, ivars: map<string, RValue>, mode: FreezeMode) {
    && Ordered(objs) && a <= lo < |objs|
    && objs[a].body.InstanceBody? && !objs[a].frozen
    && objs[a].body.ivars.Keys == ivars.Keys
    && (forall k | k in ivars ::
          var v := objs[a].body.ivars[k];
          && Above(v, lo, |objs|)
          && ReadBack(objs, v) == ivars[k]
          && (mode.Deep? ==> AllFrozen(objs, v)))
    && (!mode.Deep? ==> forall b | a <= b < |objs| :: !objs[b].frozen)
  }

  lemma FillingKept(objs: seq<Obj>, more: seq<Obj>, a: nat, lo: nat, ivars: map<string, RValue>, mode: FreezeMode)
    requires Filling(objs, a, lo, ivars, mode)
    requires Ordered(more) && Kept(objs, more, lo + 1) && more[a] == objs[a]
    requires !mode.Deep? ==> forall b | a <= b < |more| :: !more[b].frozen
    ensures Filling(more, a, lo, ivars, mode)
  {
    forall k | k in ivars
      ensures ReadBack(more, objs[a].body.ivars[k]) == ivars[k]
      ensures mode.Deep? ==> AllFrozen(more, objs[a].body.ivars[k])
    {
      var v := objs[a].body.ivars[k];
      ReadBackFrame(objs, more, lo + 1, v);
      if mode.Deep? {
        AllFrozenKept(objs, more, lo + 1, v);
      }
    }
  }

  method SetIvar(heap: Heap, a: nat, lo: nat, name: string, v: Val, mode: FreezeMode,
                 ghost ivars: map<string, RValue>)
    requires Filling(heap.objs, a, lo, ivars, mode) && Above(v, lo, |heap.objs|)
    requires mode.Deep? ==> AllFrozen(heap.objs, v)
    modifies heap
    ensures |heap.objs| == |old(heap.objs)|
    ensures forall b | 0 <= b < |heap.objs| && b != a :: heap.objs[b] == old(heap.objs)[b]
    ensures Filling(heap.objs, a, lo, ivars[name := ReadBack(old(heap.objs), v)], mode)
  {
    ghost var objs := heap.objs;
    ghost var set' := objs[a].body.ivars[name := v];
    assert BodyAbove(objs[a].body, a, |objs|);
    heap.IvarSet(a, name, v);
    OrderedUpdate(objs, a, InstanceBody(set'), false);
    assert Kept(objs, heap.objs, lo + 1);
    forall k | k in set'
      ensures ReadBack(heap.objs, set'[k]) == ReadBack(objs, set'[k])
      ensures mode.Deep? ==> AllFrozen(heap.objs, set'[k])
    {
      ReadBackFrame(objs, heap.objs, lo + 1, set'[k]);
      if mode.Deep? {
        AllFrozenKept(objs, heap.objs, lo + 1, set'[k]);
      }
    }
  }

  /** The attributes hash, when there is one, holds these stores. */
  ghost predicate Storing(objs: seq<Obj>, a: nat, lo: nat, store: bool, stored: seq<RPair>) {
    if store then lo == a + 1 && HashAt(objs, lo, HashOf(stored).pairs) else lo == a
  }

  /** Puts a value into the attributes hash, if there is one. */
  method StoreAttribute(heap: Heap, a: nat, lo: nat, store: bool, key: HKey, v: Val, mode: FreezeMode,
                        ghost ivars: map<string, RValue>, ghost stored: seq<RPair>)
    requires Filling(heap.objs, a, lo, ivars, mode) && Storing(heap.objs, a, lo, store, stored)
    requires Above(v, lo, |heap.objs|) && (mode.Deep? ==> AllFrozen(heap.objs, v))
    modifies heap
    ensures |heap.objs| == |old(heap.objs)|
    ensures forall b | 0 <= b < |heap.objs| && b != lo :: heap.objs[b] == old(heap.objs)[b]
    ensures heap.objs[a] == old(heap.objs)[a]
    ensures Filling(heap.objs, a, lo, ivars, mode)
    ensures ReadBack(heap.objs, v) == ReadBack(old(heap.objs), v)
    ensures mode.Deep? ==> AllFrozen(heap.objs, v)
    ensures Storing(heap.objs, a, lo, store, stored + [RPair(ReadKey(key), ReadBack(old(heap.objs), v))])
  {
    if store {
      ghost var objs := heap.objs;
      HashStore(heap, lo, key, v, HashOf(stored).pairs);
      HashOfSnoc(stored, RPair(ReadKey(key), ReadBack(objs, v)));
      FillingKept(objs, heap.objs, a, lo, ivars, mode);
      ReadBackFrame(objs, heap.objs, lo + 1, v);
      if mode.Deep? {
        AllFrozenKept(objs, heap.objs, lo + 1, v);
      }
    }
  }

  lemma GrewKeeps(objs: seq<Obj>, more: seq<Obj>, a: nat, lo: nat, ivars: map<string, RValue>, mode: FreezeMode,
                  store: bool, stored: seq<RPair>)
    requires Filling(objs, a, lo, ivars, mode) && Storing(objs, a, lo, store, stored)
    requires objs <= more && Ordered(more)
    requires !mode.Deep? ==> forall b | |objs| <= b < |more| :: !more[b].frozen
    ensures Filling(more, a, lo, ivars, mode) && Storing(more, a, lo, store, stored)
  {
    FillingKept(objs, more, a, lo, ivars, mode);
    if store {
      ReadBackFrame(objs, more, 0, VRef(lo));
    }
  }

  /** A converted field is stored as attribute, then as instance variable. */
  method StoreField(heap: Heap, a: nat, lo: nat, name: string, v: Val, mode: FreezeMode, store: bool,
                    ghost puts: seq<RPair>)
    requires Filling(heap.objs, a, lo, Ivars(puts, |puts|), mode) && Storing(heap.objs, a, lo, store, puts)
    requires Above(v, lo, |heap.objs|) && (mode.Deep? ==> AllFrozen(heap.objs, v))
    modifies heap
    ensures |heap.objs| == |old(heap.objs)| && old(heap.objs)[..a] == heap.objs[..a]
    ensures var more := puts + [RPair(RSymbol(name), ReadBack(old(heap.objs), v))];
            && Filling(heap.objs, a, lo, Ivars(more, |more|), mode)
            && Storing(heap.objs, a, lo, store, more)
  {
    ghost var put := RPair(RSymbol(name), ReadBack(heap.objs, v));
    StoreAttribute(heap, a, lo, store, SymKey(name), v, mode, Ivars(puts, |puts|), puts);
    ghost var objs := heap.objs;
    SetIvar(heap, a, lo, "@" + name, v, mode, Ivars(puts, |puts|));
    IvarsSnoc(puts, put);
    if store {
      ReadBackFrame(objs, heap.objs, lo, VRef(lo));
    }
  }

  /** The stores made once this field, if present, is added to `puts`. */
  ghost function WithField(puts: seq<RPair>, put: Option<RPair>): seq<RPair> {
    if put.Some? then puts + [put.value] else puts
  }

  /** One planned field: looked up and, if present, converted and stored. */
  method SetField(heap: Heap, a: nat, lo: nat, name: string, root: Value, lookup: map<string, nat>,
                  mode: FreezeMode, store: bool, ghost puts: seq<RPair>)
    returns (r: Result<(), MaterializeError>)
    requires root.Struct? && Indexes(lookup, root.names)
    requires Filling(heap.objs, a, lo, Ivars(puts, |puts|), mode) && Storing(heap.objs, a, lo, store, puts)
    modifies heap
    ensures a < |heap.objs| && old(heap.objs)[..a] == heap.objs[..a] && Ordered(heap.objs)
    ensures match PlanPut(root.names, root.fields, name)
            case Failure(f) => r == Failure(f)
            case Success(put) =>
              var more := WithField(puts, put);
              && r.Success?
              && Filling(heap.objs, a, lo, Ivars(more, |more|), mode)
              && Storing(heap.objs, a, lo, store, more)
  {
    assert LastIndex(root.names, name) == if name in lookup then Some(lookup[name]) else None;
    if name in lookup && lookup[name] < |root.fields| && root.fields[lookup[name]].Some? {
      ghost var before := heap.objs;
      var made := FreshValue(heap, root.fields[lookup[name]].value, mode);
      if made.Failure? {
        return Failure(made.error);
      }
      GrewKeeps(before, heap.objs, a, lo, Ivars(puts, |puts|), mode, store, puts);
      StoreField(heap, a, lo, name, made.value, mode, store, puts);
    }
    r := Success(());
  }

  /** The plan loop: each planned field that has a value becomes an attribute
      and an instance variable. */
  method RunPlan(heap: Heap, a: nat, lo: nat, plan: seq<string>, root: Value, mode: FreezeMode, store: bool)
    returns (r: Result<(), MaterializeError>, ghost puts: seq<RPair>)
    requires root.Struct?
    requires Filling(heap.objs, a, lo, map[], mode) && Storing(heap.objs, a, lo, store, [])
    modifies heap
    ensures a < |heap.objs| && old(heap.objs)[..a] == heap.objs[..a]
    ensures Ordered(heap.objs)
    ensures match Gather(PlanPuts(plan, root.names, root.fields), |plan|)
            case Failure(f) => r == Failure(f)
            case Success(slots) =>
              && r.Success? && puts == Somes(slots, |slots|)
              && Filling(heap.objs, a, lo, Ivars(puts, |puts|), mode)
              && Storing(heap.objs, a, lo, store, puts)
  {
    var lookup := BuildLookup(root.names);
    ghost var results := PlanPuts(plan, root.names, root.fields);
    ghost var slots: seq<Option<RPair>> := [];
    puts := [];
    for n := 0 to |plan|
      invariant a < |heap.objs| && old(heap.objs)[..a] == heap.objs[..a]
      invariant Gather(results, n) == Success(slots) && |slots| == n && puts == Somes(slots, n)
      invariant Filling(heap.objs, a, lo, Ivars(puts, |puts|), mode)
      invariant Storing(heap.objs, a, lo, store, puts)
    {
      assert results[n] == PlanPut(root.names, root.fields, plan[n]);
      r := SetField(heap, a, lo, plan[n], root, lookup, mode, store, puts);
      if r.Failure? {
        GatherFails(results, n, |plan|);
        return;
      }
      SomesSnoc(slots, results[n].value);
      puts := WithField(puts, results[n].value);
      slots := slots + [results[n].value];
    }
    r := Success(());
  }

  method KeepExtra(heap: Heap, a: nat, lo: nat, e: Entry, mode: FreezeMode, store: bool,
                   ghost ivars: map<string, RValue>, ghost stored: seq<RPair>)
    returns (r: Result<(), MaterializeError>)
    requires Filling(heap.objs, a, lo, ivars, mode) && Storing(heap.objs, a, lo, store, stored)
    modifies heap
    ensures a < |heap.objs| && old(heap.objs)[..a] == heap.objs[..a]
    ensures Ordered(heap.objs)
    ensures match ExtraStep(e, store)
            case Failure(f) => r == Failure(f)
            case Success(put) =>
              && r.Success?
              && Filling(heap.objs, a, lo, ivars, mode)
              && Storing(heap.objs, a, lo, store, stored + [put])
  {
    ghost var before := heap.objs;
    var made := FreshValue(heap, e.value, mode);
    if made.Failure? {
      return Failure(made.error);
    }
    if store && !NulFree(e.key) {
      return Failure(InvalidKey(e.key));
    }
    GrewKeeps(before, heap.objs, a, lo, ivars, mode, store, stored);
    StoreAttribute(heap, a, lo, store, StrKey(e.key), made.value, mode, ivars, stored);
    r := Success(());
  }

  /** The extras loop: converted always, stored only with attributes. */
  method RunExtras(heap: Heap, a: nat, lo: nat, root: Value, mode: FreezeMode, store: bool,
                   ghost ivars: map<string, RValue>, ghost puts: seq<RPair>)
    returns (r: Result<(), MaterializeError>)
    requires root.Struct?
    requires Filling(heap.objs, a, lo, ivars, mode) && Storing(heap.objs, a, lo, store, puts)
    modifies heap
    ensures a < |heap.objs| && old(heap.objs)[..a] == heap.objs[..a]
    ensures Ordered(heap.objs)
    ensures match Gather(ExtraSteps(root.extras, store), |root.extras|)
            case Failure(f) => r == Failure(f)
            case Success(extras) =>
              && r.Success?
              && Filling(heap.objs, a, lo, ivars, mode)
              && Storing(heap.objs, a, lo, store, puts + extras)
  {
    ghost var results := ExtraSteps(root.extras, store);
    ghost var extras: seq<RPair> := [];
    assert puts + extras == puts;
    for n := 0 to |root.extras|
      invariant a < |heap.objs| && old(heap.objs)[..a] == heap.objs[..a]
      invariant Gather(results, n) == Success(extras)
      invariant Filling(heap.objs, a, lo, ivars, mode)
      invariant Storing(heap.objs, a, lo, store, puts + extras)
    {
      assert results[n] == ExtraStep(root.extras[n], store);
      r := KeepExtra(heap, a, lo, root.extras[n], mode, store, ivars, puts + extras);
      if r.Failure? {
        GatherFails(results, n, |root.extras|);
        return;
      }
      assert puts + (extras + [results[n].value]) == (puts + extras) + [results[n].value];
      extras := extras + [results[n].value];
    }
    r := Success(());
  }

  /** The instance at `a` holds what `spec` says; the attributes variable, when
      there is one, takes the place of a field of that name. */
  ghost predicate Holds(objs: seq<Obj>, a: nat, spec: Instance, store: bool) {
    && Ordered(objs) && a < |objs| && objs[a].body.InstanceBody?
    && BodyAbove(objs[a].body, a, |objs|)
    && var ivars := objs[a].body.ivars;
       && ivars.Keys == spec.ivars.Keys + (if store then {"@attributes"} else {})
       && (forall k | k in spec.ivars && !(store && k == "@attributes") ::
             ReadBack(objs, ivars[k]) == spec.ivars[k])
       && (store ==> ReadBack(objs, ivars["@attributes"]) == HashOf(spec.stored))
  }

  /** Deep freezes everything reachable from the instance; shallow the instance
      and its attributes hash only; otherwise nothing that was made is frozen. */
  ghost predicate Sealed(objs: seq<Obj>, a: nat, mode: FreezeMode, store: bool)
    requires Ordered(objs) && a < |objs| && objs[a].body.InstanceBody?
    requires BodyAbove(objs[a].body, a, |objs|)
  {
    var ivars := objs[a].body.ivars;
    match mode
    case Deep => objs[a].frozen && forall k | k in ivars :: AllFrozen(objs, ivars[k])
    case Shallow =>
      && (store ==> "@attributes" in ivars && ivars["@attributes"] == VRef(a + 1))
      && forall b | a <= b < |objs| :: objs[b].frozen <==> b == a || (store && b == a + 1)
    case Unfrozen => forall b | a <= b < |objs| :: !objs[b].frozen
  }

  /** Ready for the final freezing: the field values already are frozen in deep
      mode, and nothing is in the others. */
  ghost predicate Sealable(objs: seq<Obj>, a: nat, mode: FreezeMode, store: bool)
    requires Ordered(objs) && a < |objs| && objs[a].body.InstanceBody?
    requires BodyAbove(objs[a].body, a, |objs|)
  {
    var ivars := objs[a].body.ivars;
    && !objs[a].frozen
    && (store ==> "@attributes" in ivars && ivars["@attributes"] == VRef(a + 1))
    && (mode.Deep? ==> forall k | k in ivars && !(store && k == "@attributes") :: AllFrozen(objs, ivars[k]))
    && (!mode.Deep? ==> forall b | a <= b < |objs| :: !objs[b].frozen)
  }

  lemma HoldsSame(objs: seq<Obj>, more: seq<Obj>, a: nat, spec: Instance, store: bool)
    requires Holds(objs, a, spec, store) && Ordered(more) && |more| == |objs| && SameFrom(objs, more, 0)
    ensures Holds(more, a, spec, store)
  {
    var ivars := objs[a].body.ivars;
    forall k | k in ivars ensures ReadBack(more, ivars[k]) == ReadBack(objs, ivars[k]) {
      ReadBackFrame(objs, more, 0, ivars[k]);
    }
  }

  /** Sets `@attributes`, after which the instance is complete. */
  method Complete(heap: Heap, a: nat, lo: nat, mode: FreezeMode, store: bool, ghost spec: Instance)
    requires Filling(heap.objs, a, lo, spec.ivars, mode) && Storing(heap.objs, a, lo, store, spec.stored)
    modifies heap
    ensures |heap.objs| == |old(heap.objs)|
    ensures forall b | 0 <= b < |heap.objs| && b != a :: heap.objs[b] == old(heap.objs)[b]
    ensures Holds(heap.objs, a, spec, store) && Sealable(heap.objs, a, mode, store)
  {
    ghost var objs := heap.objs;
    ghost var ivars := objs[a].body.ivars;
    assert BodyAbove(objs[a].body, a, |objs|);
    if store {
      heap.IvarSet(a, "@attributes", VRef(lo));
      OrderedUpdate(objs, a, InstanceBody(ivars["@attributes" := VRef(lo)]), false);
      assert Kept(objs, heap.objs, a + 1);
      ReadBackFrame(objs, heap.objs, a + 1, VRef(lo));
      forall k | k in ivars
        ensures ReadBack(heap.objs, ivars[k]) == ReadBack(objs, ivars[k])
        ensures mode.Deep? ==> AllFrozen(heap.objs, ivars[k])
      {
        ReadBackFrame(objs, heap.objs, a + 1, ivars[k]);
        if mode.Deep? {
          AllFrozenKept(objs, heap.objs, a + 1, ivars[k]);
        }
      }
    }
  }

  /** Freezes a complete instance as the mode asks. */
  method Seal(heap: Heap, a: nat, mode: FreezeMode, store: bool, ghost spec: Instance)
    requires Holds(heap.objs, a, spec, store) && Sealable(heap.objs, a, mode, store)
    modifies heap
    ensures |heap.objs| == |old(heap.objs)| && old(heap.objs)[..a] == heap.objs[..a]
    ensures Holds(heap.objs, a, spec, store)
    ensures Sealed(heap.objs, a, mode, store)
  {
    ghost var objs := heap.objs;
    match mode
    case Unfrozen =>
    case Shallow =>
      if store {
        heap.Freeze(VRef(a + 1));
      }
      heap.Freeze(VRef(a));
      ghost var which := if store then {a + 1, a} else {a};
      assert heap.objs == FreezeAll(objs, which);
      FreezeAllOrdered(objs, which);
      HoldsSame(objs, heap.objs, a, spec, store);
    case Deep =>
      if store {
        DeepFreezeFrom(heap, a, a + 1, spec, store);
      }
      DeepFreezeFrom(heap, a, a, spec, store);
  }

  /** Deep freezing the instance or its attributes keeps what is held, thaws
      nothing, and touches nothing older. */
  method DeepFreezeFrom(heap: Heap, a: nat, from: nat, ghost spec: Instance, store: bool)
    requires Holds(heap.objs, a, spec, store) && a <= from < |heap.objs|
    modifies heap
    ensures |heap.objs| == |old(heap.objs)| && old(heap.objs)[..a] == heap.objs[..a]
    ensures Holds(heap.objs, a, spec, store)
    ensures heap.objs[a].body == old(heap.objs)[a].body
    ensures AllFrozen(heap.objs, VRef(from)) && heap.objs[from].frozen
    ensures forall k | k in heap.objs[a].body.ivars && AllFrozen(old(heap.objs), heap.objs[a].body.ivars[k]) ::
              AllFrozen(heap.objs, heap.objs[a].body.ivars[k])
  {
    ghost var objs := heap.objs;
    ghost var reach := Reach(objs, VRef(from));
    heap.DeepFreeze(VRef(from));
    FreezeAllOrdered(objs, reach);
    FrozenAfter(objs, VRef(from));
    ReachFreezeAll(objs, reach, VRef(from));
    assert from in reach;
    HoldsSame(objs, heap.objs, a, spec, store);
    forall b | b in reach ensures from <= b {
      ReachAbove(objs, VRef(from), b);
    }
    ghost var ivars := objs[a].body.ivars;
    forall k | k in ivars && AllFrozen(objs, ivars[k]) ensures AllFrozen(heap.objs, ivars[k]) {
      AllFrozenKept(objs, heap.objs, 0, ivars[k]);
    }
  }

  /** A fresh instance and, if asked for, its attributes hash just after it. */
  method NewInstance(heap: Heap, store: bool, ghost mode: FreezeMode) returns (a: nat, lo: nat)
    requires Ordered(heap.objs)
    modifies heap
    ensures a == |old(heap.objs)| && a < |heap.objs| && heap.objs[..a] == old(heap.objs)
    ensures Filling(heap.objs, a, lo, map[], mode) && Storing(heap.objs, a, lo, store, [])
  {
    OrderedAppend(heap.objs, InstanceBody(map[]), false);
    a := heap.Alloc(InstanceBody(map[]));
    lo := a;
    if store {
      OrderedAppend(heap.objs, HashBody([]), false);
      lo := heap.Alloc(HashBody([]));
    }
  }

  /** Plan, extras and the attributes variable, on a fresh instance. */
  method FillInstance(heap: Heap, a: nat, lo: nat, root: Value, plan: seq<string>, mode: FreezeMode, store: bool)
    returns (r: Result<(), MaterializeError>)
    requires root.Struct?
    requires Filling(heap.objs, a, lo, map[], mode) && Storing(heap.objs, a, lo, store, [])
    modifies heap
    ensures a < |heap.objs| && old(heap.objs)[..a] == heap.objs[..a]
    ensures match InstanceOf(plan, root, store)
            case Failure(f) => r == Failure(f)
            case Success(spec) =>
              r.Success? && Holds(heap.objs, a, spec, store) && Sealable(heap.objs, a, mode, store)
  {
    var planned, puts := RunPlan(heap, a, lo, plan, root, mode, store);
    if planned.Failure? {
      return Failure(planned.error);
    }
    var extended := RunExtras(heap, a, lo, root, mode, store, Ivars(puts, |puts|), puts);
    if extended.Failure? {
      return Failure(extended.error);
    }
    Complete(heap, a, lo, mode, store, InstanceOf(plan, root, store).value);
    r := Success(());
  }

  method MaterializeInstance(heap: Heap, root: Value, plan: seq<string>, mode: FreezeMode, store: bool)
    returns (r: Result<nat, MaterializeError>)
    requires Ordered(heap.objs)
    modifies heap
    ensures old(heap.objs) <= heap.objs
    ensures match InstanceOf(plan, root, store)
            case Failure(f) => r == Failure(f)
            case Success(spec) =>
              && r == Success(|old(heap.objs)|)
              && Holds(heap.objs, |old(heap.objs)|, spec, store)
              && Sealed(heap.objs, |old(heap.objs)|, mode, store)
  {
    if !root.Struct? {
      return Failure(UnsupportedRoot(TypeName(root)));
    }
    ghost var objs := heap.objs;
    var a, lo := NewInstance(heap, store, mode);
    var filled := FillInstance(heap, a, lo, root, plan, mode, store);
    assert heap.objs[..a] == objs;
    if filled.Failure? {
      return Failure(filled.error);
    }
    Seal(heap, a, mode, store, InstanceOf(plan, root, store).value);
    assert heap.objs[..a] == objs;
    r := Success(a);
  }
}
