/** Materialisation on the Ruby heap (`materialize.rs`): containers are
    allocated first and filled in place. */
module Materializer {
  import opened Wrappers
  import opened Values
  import opened Ruby
  import opened NormalForms
  import opened Materialize
  import opened RubyHeap

  /** Old objects are untouched; new ones are unfrozen and well ordered. */
  ghost predicate Grew(objs: seq<Obj>, more: seq<Obj>) {
    && objs <= more
    && Ordered(more)
    && forall a | |objs| <= a < |more| :: !more[a].frozen
  }

  /** A heap result agrees with the value-level one; `lo` is where new
      objects begin. */
  ghost predicate Made(objs: seq<Obj>, lo: nat, r: Result<Val, MaterializeError>,
                       spec: Result<RValue, MaterializeError>)
    requires Ordered(objs)
  {
    match spec
    case Failure(f) => r == Failure(f)
    case Success(x) => r.Success? && Above(r.value, lo - 1, |objs|) && ReadBack(objs, r.value) == x
  }

  lemma OrderedAppend(objs: seq<Obj>, body: Body, frozen: bool)
    requires Ordered(objs) && (body.StringBody? || body == ArrayBody([]) || body == HashBody([])
                               || body == InstanceBody(map[]))
    ensures Ordered(objs + [Obj(body, frozen)])
  {
    var more := objs + [Obj(body, frozen)];
    forall a | 0 <= a < |more| ensures BodyAbove(more[a].body, a, |more|) {
      if a < |objs| {
        assert BodyAbove(objs[a].body, a, |objs|);
      }
    }
  }

  lemma OrderedUpdate(objs: seq<Obj>, a: nat, body: Body, frozen: bool)
    requires Ordered(objs) && a < |objs| && BodyAbove(body, a, |objs|)
    ensures Ordered(objs[a := Obj(body, frozen)])
    ensures SameFrom(objs, objs[a := Obj(body, frozen)], a + 1)
  {
    var more := objs[a := Obj(body, frozen)];
    forall b | 0 <= b < |more| ensures BodyAbove(more[b].body, b, |more|) {
      if b != a {
        assert BodyAbove(objs[b].body, b, |objs|);
      }
    }
  }

  /** `a` is an unfrozen array reading as `xs`. */
  ghost predicate ArrayAt(objs: seq<Obj>, a: nat, xs: seq<RValue>) {
    && Ordered(objs) && a < |objs| && objs[a].body.ArrayBody? && !objs[a].frozen
    && ReadBack(objs, VRef(a)) == RArray(xs)
  }

  /** `a` is an unfrozen hash reading as `pairs`. */
  ghost predicate HashAt(objs: seq<Obj>, a: nat, pairs: seq<RPair>) {
    && Ordered(objs) && a < |objs| && objs[a].body.HashBody? && !objs[a].frozen
    && ReadBack(objs, VRef(a)) == RHash(pairs)
  }

  lemma ReadGrew(objs: seq<Obj>, more: seq<Obj>, v: Val)
    requires Ordered(objs) && Grew(objs, more) && Above(v, -1, |objs|)
    ensures ReadBack(more, v) == ReadBack(objs, v)
  {
    ReadBackFrame(objs, more, 0, v);
  }

  method ArrayAppend(heap: Heap, a: nat, v: Val, ghost xs: seq<RValue>)
    requires ArrayAt(heap.objs, a, xs) && Above(v, a, |heap.objs|)
    modifies heap
    ensures |heap.objs| == |old(heap.objs)|
    ensures forall b | 0 <= b < |heap.objs| && b != a :: heap.objs[b] == old(heap.objs)[b]
    ensures ArrayAt(heap.objs, a, xs + [ReadBack(old(heap.objs), v)])
  {
    ghost var objs := heap.objs;
    var items := heap.objs[a].body.items;
    assert BodyAbove(objs[a].body, a, |objs|);
    heap.ArrayPush(a, v);
    OrderedUpdate(objs, a, ArrayBody(items + [v]), false);
    forall i | 0 <= i < |items + [v]|
      ensures ReadBack(heap.objs, (items + [v])[i]) == ReadBack(objs, (items + [v])[i])
    {
      ReadBackFrame(objs, heap.objs, a + 1, (items + [v])[i]);
    }
    assert ReadBack(heap.objs, VRef(a)).items == xs + [ReadBack(objs, v)];
  }

  method HashStore(heap: Heap, a: nat, key: HKey, v: Val, ghost pairs: seq<RPair>)
    requires HashAt(heap.objs, a, pairs) && Above(v, a, |heap.objs|)
    modifies heap
    ensures |heap.objs| == |old(heap.objs)|
    ensures forall b | 0 <= b < |heap.objs| && b != a :: heap.objs[b] == old(heap.objs)[b]
    ensures HashAt(heap.objs, a, HashPut(pairs, RPair(ReadKey(key), ReadBack(old(heap.objs), v))))
  {
    ghost var objs := heap.objs;
    ghost var hpairs := heap.objs[a].body.pairs;
    ghost var stored := HPut(hpairs, HPair(key, v));
    assert BodyAbove(objs[a].body, a, |objs|);
    HPutAbove(hpairs, HPair(key, v), a, |objs|);
    heap.HashAset(a, key, v);
    OrderedUpdate(objs, a, HashBody(stored), false);
    HPutReads(objs, hpairs, HPair(key, v));
    assert ReadPairs(objs, hpairs) == pairs;
    forall i | 0 <= i < |stored|
      ensures ReadBack(heap.objs, stored[i].value) == ReadBack(objs, stored[i].value)
    {
      ReadBackFrame(objs, heap.objs, a + 1, stored[i].value);
    }
    assert ReadBack(heap.objs, VRef(a)).pairs == ReadPairs(objs, stored);
  }

  lemma {:induction false} PutAllPrefix(base: seq<RPair>, puts: seq<RPair>, more: seq<RPair>, n: nat)
    requires n <= |puts|
    ensures PutAll(base, puts + more, n) == PutAll(base, puts, n)
  {
    if n > 0 {
      PutAllPrefix(base, puts, more, n - 1);
      assert (puts + more)[n - 1] == puts[n - 1];
    }
  }

  lemma HashOfSnoc(puts: seq<RPair>, put: RPair)
    ensures HashOf(puts + [put]) == RHash(HashPut(HashOf(puts).pairs, put))
  {
    PutAllPrefix([], puts, [put], |puts|);
  }

  method OwnedToRuby(heap: Heap, v: Value) returns (r: Result<Val, MaterializeError>)
    requires Ordered(heap.objs)
    modifies heap
    ensures Grew(old(heap.objs), heap.objs)
    ensures Made(heap.objs, |old(heap.objs)|, r, ToRuby(v))
    decreases v, 1
  {
    match v
    case Null => r := Success(VNil);
    case Bool(b) => r := Success(if b then VTrue else VFalse);
    case Int(i) => r := Success(VInteger(i));
    case Float(f) => r := Success(VFloat(f));
    case String(s) =>
      OrderedAppend(heap.objs, StringBody(s), false);
      var a := heap.Alloc(StringBody(s));
      r := Success(VRef(a));
    case Symbol(name) =>
      r := if NulFree(name) then Success(VSymbol(name)) else Failure(InvalidSymbol(name));
    case List(items) => r := ListToRuby(heap, v);
    case Dict(entries) => r := DictToRuby(heap, v);
    case Struct(_, _, _) => r := StructToRuby(heap, v);
  }

  method ListToRuby(heap: Heap, v: Value) returns (r: Result<Val, MaterializeError>)
    requires Ordered(heap.objs) && v.List?
    modifies heap
    ensures Grew(old(heap.objs), heap.objs)
    ensures Made(heap.objs, |old(heap.objs)|, r, ToRuby(v))
    decreases v, 0
  {
    ghost var results := Items(v.items);
    OrderedAppend(heap.objs, ArrayBody([]), false);
    var a := heap.Alloc(ArrayBody([]));
    ghost var xs := [];
    for n := 0 to |v.items|
      invariant Grew(old(heap.objs), heap.objs) && a == |old(heap.objs)|
      invariant Gather(results, n) == Success(xs)
      invariant ArrayAt(heap.objs, a, xs)
    {
      ghost var before := heap.objs;
      var made := OwnedToRuby(heap, v.items[n]);
      if made.Failure? {
        GatherFails(results, n, |v.items|);
        return made;
      }
      ReadGrew(before, heap.objs, VRef(a));
      ArrayAppend(heap, a, made.value, xs);
      xs := xs + [results[n].value];
    }
    r := Success(VRef(a));
  }

  /** Heap before and after one store into the hash at `a`, which is among the
      objects still being filled. */
  ghost predicate Advanced(objs: seq<Obj>, more: seq<Obj>, a: nat) {
    && Ordered(more) && a < |objs| <= |more|
    && objs[..a] == more[..a]
    && forall b | a <= b < |more| :: !more[b].frozen
  }

  /** Converts a value and stores it under a key, unless the key, which is
      made after the value, turns out bad. */
  method ValueToRuby(heap: Heap, a: nat, key: HKey, badKey: Option<MaterializeError>, value: Value,
                     ghost puts: seq<RPair>)
    returns (r: Result<(), MaterializeError>)
    requires HashAt(heap.objs, a, HashOf(puts).pairs)
    requires forall b | a <= b < |heap.objs| :: !heap.objs[b].frozen
    modifies heap
    ensures Advanced(old(heap.objs), heap.objs, a)
    ensures match ToRuby(value)
            case Failure(f) => r == Failure(f)
            case Success(x) =>
              if badKey.Some? then r == Failure(badKey.value)
              else r.Success? && HashAt(heap.objs, a, HashOf(puts + [RPair(ReadKey(key), x)]).pairs)
    decreases value, 2
  {
    ghost var before := heap.objs;
    var made := OwnedToRuby(heap, value);
    if made.Failure? {
      return Failure(made.error);
    }
    if badKey.Some? {
      return Failure(badKey.value);
    }
    ReadGrew(before, heap.objs, VRef(a));
    HashOfSnoc(puts, RPair(ReadKey(key), ReadBack(heap.objs, made.value)));
    HashStore(heap, a, key, made.value, HashOf(puts).pairs);
    r := Success(());
  }

  method EntryToRuby(heap: Heap, a: nat, e: Entry, ghost puts: seq<RPair>)
    returns (r: Result<(), MaterializeError>)
    requires HashAt(heap.objs, a, HashOf(puts).pairs)
    requires forall b | a <= b < |heap.objs| :: !heap.objs[b].frozen
    modifies heap
    ensures Advanced(old(heap.objs), heap.objs, a)
    ensures match DictPut(e)
            case Failure(f) => r == Failure(f)
            case Success(put) => r.Success? && HashAt(heap.objs, a, HashOf(puts + [put]).pairs)
    decreases e, 0
  {
    if !NulFree(e.key) {
      return Failure(InvalidSymbol(e.key));
    }
    r := ValueToRuby(heap, a, SymKey(e.key), None, e.value, puts);
  }

  method ExtraToRuby(heap: Heap, a: nat, e: Entry, ghost puts: seq<RPair>)
    returns (r: Result<(), MaterializeError>)
    requires HashAt(heap.objs, a, HashOf(puts).pairs)
    requires forall b | a <= b < |heap.objs| :: !heap.objs[b].frozen
    modifies heap
    ensures Advanced(old(heap.objs), heap.objs, a)
    ensures match ExtraPut(e)
            case Failure(f) => r == Failure(f)
            case Success(put) => r.Success? && HashAt(heap.objs, a, HashOf(puts + [put]).pairs)
    decreases e, 0
  {
    var badKey := if NulFree(e.key) then None else Some(InvalidKey(e.key));
    r := ValueToRuby(heap, a, StrKey(e.key), badKey, e.value, puts);
  }

  method FieldToRuby(heap: Heap, a: nat, name: string, value: Value, ghost puts: seq<RPair>)
    returns (r: Result<(), MaterializeError>)
    requires HashAt(heap.objs, a, HashOf(puts).pairs)
    requires forall b | a <= b < |heap.objs| :: !heap.objs[b].frozen
    modifies heap
    ensures Advanced(old(heap.objs), heap.objs, a)
    ensures match FieldPut(name, Some(value))
            case Failure(f) => r == Failure(f)
            case Success(put) => r.Success? && HashAt(heap.objs, a, HashOf(puts + [put.value]).pairs)
    decreases value, 3
  {
    var badKey := if NulFree(name) then None else Some(InvalidSymbol(name));
    r := ValueToRuby(heap, a, SymKey(name), badKey, value, puts);
  }

  method DictToRuby(heap: Heap, v: Value) returns (r: Result<Val, MaterializeError>)
    requires Ordered(heap.objs) && v.Dict?
    modifies heap
    ensures Grew(old(heap.objs), heap.objs)
    ensures Made(heap.objs, |old(heap.objs)|, r, ToRuby(v))
    decreases v, 0
  {
    ghost var results := DictPuts(v.entries);
    OrderedAppend(heap.objs, HashBody([]), false);
    var a := heap.Alloc(HashBody([]));
    ghost var puts: seq<RPair> := [];
    for n := 0 to |v.entries|
      invariant Grew(old(heap.objs), heap.objs) && a == |old(heap.objs)|
      invariant Gather(results, n) == Success(puts)
      invariant HashAt(heap.objs, a, HashOf(puts).pairs)
    {
      assert results[n] == DictPut(v.entries[n]);
      var put := EntryToRuby(heap, a, v.entries[n], puts);
      if put.Failure? {
        GatherFails(results, n, |v.entries|);
        return Failure(put.error);
      }
      puts := puts + [results[n].value];
    }
    r := Success(VRef(a));
  }

  /** The field loop over a hash that already holds `puts`. */
  method FieldsToRuby(heap: Heap, a: nat, v: Value)
    returns (r: Result<(), MaterializeError>, ghost puts: seq<RPair>)
    requires v.Struct? && HashAt(heap.objs, a, [])
    requires forall b | a <= b < |heap.objs| :: !heap.objs[b].frozen
    modifies heap
    ensures Ordered(heap.objs) && a < |heap.objs|
    ensures old(heap.objs)[..a] == heap.objs[..a]
    ensures forall b | a <= b < |heap.objs| :: !heap.objs[b].frozen
    ensures match Gather(FieldPuts(v.names, v.fields), |FieldPuts(v.names, v.fields)|)
            case Failure(f) => r == Failure(f)
            case Success(fs) =>
              r.Success? && puts == Somes(fs, |fs|) && HashAt(heap.objs, a, HashOf(puts).pairs)
    decreases v, 0, 0
  {
    ghost var results := FieldPuts(v.names, v.fields);
    ghost var fs: seq<Option<RPair>> := [];
    puts := [];
    var count := Shorter(|v.names|, |v.fields|);
    for n := 0 to count
      invariant a < |heap.objs| && old(heap.objs)[..a] == heap.objs[..a]
      invariant forall b | a <= b < |heap.objs| :: !heap.objs[b].frozen
      invariant Gather(results, n) == Success(fs) && |fs| == n && puts == Somes(fs, n)
      invariant HashAt(heap.objs, a, HashOf(puts).pairs)
    {
      assert results[n] == FieldPut(v.names[n], v.fields[n]);
      if v.fields[n].Some? {
        r := FieldToRuby(heap, a, v.names[n], v.fields[n].value, puts);
        if r.Failure? {
          GatherFails(results, n, count);
          return;
        }
        puts := puts + [results[n].value.value];
      }
      SomesSnoc(fs, results[n].value);
      fs := fs + [results[n].value];
    }
    r := Success(());
  }

  lemma {:induction false} SomesPrefix<T>(xs: seq<Option<T>>, last: Option<T>, n: nat)
    requires n <= |xs|
    ensures Somes(xs + [last], n) == Somes(xs, n)
  {
    if n > 0 {
      SomesPrefix(xs, last, n - 1);
    }
  }

  lemma SomesSnoc<T>(xs: seq<Option<T>>, last: Option<T>)
    ensures Somes(xs + [last], |xs| + 1) == Somes(xs, |xs|) + if last.Some? then [last.value] else []
  {
    SomesPrefix(xs, last, |xs|);
  }

  /** The extras loop over a hash that already holds `base`. */
  method ExtrasToRuby(heap: Heap, a: nat, v: Value, ghost base: seq<RPair>)
    returns (r: Result<(), MaterializeError>)
    requires v.Struct? && HashAt(heap.objs, a, HashOf(base).pairs)
    requires forall b | a <= b < |heap.objs| :: !heap.objs[b].frozen
    modifies heap
    ensures Ordered(heap.objs) && a < |heap.objs|
    ensures old(heap.objs)[..a] == heap.objs[..a]
    ensures forall b | a <= b < |heap.objs| :: !heap.objs[b].frozen
    ensures match Gather(ExtraPuts(v.extras), |v.extras|)
            case Failure(f) => r == Failure(f)
            case Success(es) => r.Success? && HashAt(heap.objs, a, HashOf(base + es).pairs)
    decreases v, 0, 0
  {
    ghost var results := ExtraPuts(v.extras);
    ghost var es: seq<RPair> := [];
    assert base + es == base;
    for n := 0 to |v.extras|
      invariant a < |heap.objs| && old(heap.objs)[..a] == heap.objs[..a]
      invariant forall b | a <= b < |heap.objs| :: !heap.objs[b].frozen
      invariant Gather(results, n) == Success(es)
      invariant HashAt(heap.objs, a, HashOf(base + es).pairs)
    {
      assert results[n] == ExtraPut(v.extras[n]);
      r := ExtraToRuby(heap, a, v.extras[n], base + es);
      if r.Failure? {
        GatherFails(results, n, |v.extras|);
        return;
      }
      assert base + (es + [results[n].value]) == (base + es) + [results[n].value];
      es := es + [results[n].value];
    }
    r := Success(());
  }

  method StructToRuby(heap: Heap, v: Value) returns (r: Result<Val, MaterializeError>)
    requires Ordered(heap.objs) && v.Struct?
    modifies heap
    ensures Grew(old(heap.objs), heap.objs)
    ensures Made(heap.objs, |old(heap.objs)|, r, ToRuby(v))
    decreases v, 0, 1
  {
    OrderedAppend(heap.objs, HashBody([]), false);
    var a := heap.Alloc(HashBody([]));
    assert heap.objs[..a] == old(heap.objs);
    var fields, puts := FieldsToRuby(heap, a, v);
    if fields.Failure? {
      assert heap.objs[..a] == old(heap.objs);
      return Failure(fields.error);
    }
    var extras := ExtrasToRuby(heap, a, v, puts);
    assert heap.objs[..a] == old(heap.objs);
    if extras.Failure? {
      return Failure(extras.error);
    }
    r := Success(VRef(a));
  }
}
