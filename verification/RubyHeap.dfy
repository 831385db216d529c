/** The part of Ruby's object heap that materialisation touches: objects with
    identity, contents and a frozen flag. Integers, floats, symbols and the
    three singletons are immediate; Ruby keeps those frozen always. */
module RubyHeap {
  import opened Wrappers
  import opened Values
  import opened Ruby
  import opened Materialize

  datatype Val =
    | VNil
    | VTrue
    | VFalse
    | VInteger(n: int)
    | VFloat(f: F64)
    | VSymbol(name: string)
    | VRef(addr: nat)

  /** A hash copies and freezes its string keys, so their text stands for them. */
  datatype HKey = SymKey(name: string) | StrKey(s: string)

  datatype HPair = HPair(key: HKey, value: Val)

  datatype Body =
    | StringBody(s: string)
    | ArrayBody(items: seq<Val>)
    | HashBody(pairs: seq<HPair>)
    | InstanceBody(ivars: map<string, Val>)

  datatype Obj = Obj(body: Body, frozen: bool)

  predicate Above(v: Val, lo: int, hi: int) {
    v.VRef? ==> lo < v.addr < hi
  }

  /** A container refers only to objects allocated after it. */
  predicate BodyAbove(body: Body, lo: int, hi: int) {
    match body
    case StringBody(_) => true
    case ArrayBody(items) => forall i | 0 <= i < |items| :: Above(items[i], lo, hi)
    case HashBody(pairs) => forall i | 0 <= i < |pairs| :: Above(pairs[i].value, lo, hi)
    case InstanceBody(ivars) => forall k | k in ivars :: Above(ivars[k], lo, hi)
  }

  predicate Ordered(objs: seq<Obj>) {
    forall a | 0 <= a < |objs| :: BodyAbove(objs[a].body, a, |objs|)
  }

  function ReadKey(key: HKey): RValue {
    match key
    case SymKey(name) => RSymbol(name)
    case StrKey(s) => RString(s)
  }

  /** The Ruby value a reference stands for. */
  function ReadBack(objs: seq<Obj>, v: Val): RValue
    requires Ordered(objs) && Above(v, -1, |objs|)
    decreases if v.VRef? then |objs| - v.addr else 0
  {
    match v
    case VNil => RNil
    case VTrue => RTrue
    case VFalse => RFalse
    case VInteger(n) => RInteger(n)
    case VFloat(f) => RFloat(f)
    case VSymbol(name) => RSymbol(name)
    case VRef(a) =>
      assert BodyAbove(objs[a].body, a, |objs|);
      match objs[a].body
      case StringBody(s) => RString(s)
      case ArrayBody(items) =>
        RArray(seq(|items|, i requires 0 <= i < |items| => ReadBack(objs, items[i])))
      case HashBody(pairs) =>
        RHash(seq(|pairs|, i requires 0 <= i < |pairs| =>
          RPair(ReadKey(pairs[i].key), ReadBack(objs, pairs[i].value))))
      case InstanceBody(_) => RObject("Object")
  }

  /** `more` has at least these objects, and from `lo` on with the same contents. */
  ghost predicate SameFrom(objs: seq<Obj>, more: seq<Obj>, lo: nat) {
    && |objs| <= |more|
    && forall a | lo <= a < |objs| :: more[a].body == objs[a].body
  }

  /** Reading looks only at the object referred to and later ones. */
  lemma {:induction false} ReadBackFrame(objs: seq<Obj>, more: seq<Obj>, lo: nat, v: Val)
    requires Ordered(objs) && Ordered(more) && SameFrom(objs, more, lo)
    requires Above(v, lo - 1, |objs|)
    ensures ReadBack(more, v) == ReadBack(objs, v)
    decreases if v.VRef? then |objs| - v.addr else 0
  {
    if v.VRef? {
      var a := v.addr;
      assert BodyAbove(objs[a].body, a, |objs|);
      match objs[a].body
      case ArrayBody(items) =>
        forall i | 0 <= i < |items| ensures ReadBack(more, items[i]) == ReadBack(objs, items[i]) {
          ReadBackFrame(objs, more, lo, items[i]);
        }
        assert ReadBack(more, v).items == ReadBack(objs, v).items;
      case HashBody(pairs) =>
        forall i | 0 <= i < |pairs| ensures ReadBack(more, pairs[i].value) == ReadBack(objs, pairs[i].value) {
          ReadBackFrame(objs, more, lo, pairs[i].value);
        }
        assert ReadBack(more, v).pairs == ReadBack(objs, v).pairs;
      case _ =>
    }
  }

  /** What deep freezing goes on to from an object: array elements and hash
      values; not instance variables. */
  function Contents(body: Body): seq<Val> {
    match body
    case ArrayBody(items) => items
    case HashBody(pairs) => seq(|pairs|, i requires 0 <= i < |pairs| => pairs[i].value)
    case _ => []
  }

  /** Addresses reachable through arrays and hashes. */
  ghost function Reach(objs: seq<Obj>, v: Val): set<nat>
    requires Ordered(objs) && Above(v, -1, |objs|)
    decreases if v.VRef? then |objs| - v.addr else 0
  {
    if !v.VRef? then {}
    else
      assert BodyAbove(objs[v.addr].body, v.addr, |objs|);
      var kids := Contents(objs[v.addr].body);
      {v.addr} + set i, a | 0 <= i < |kids| && a in Reach(objs, kids[i]) :: a
  }

  ghost function KidsReach(objs: seq<Obj>, kids: seq<Val>, n: nat): set<nat>
    requires Ordered(objs) && n <= |kids| && forall i | 0 <= i < |kids| :: Above(kids[i], -1, |objs|)
  {
    set i, a | 0 <= i < n && a in Reach(objs, kids[i]) :: a
  }

  lemma KidsReachStep(objs: seq<Obj>, kids: seq<Val>, n: nat)
    requires Ordered(objs) && n < |kids| && forall i | 0 <= i < |kids| :: Above(kids[i], -1, |objs|)
    ensures KidsReach(objs, kids, n + 1) == KidsReach(objs, kids, n) + Reach(objs, kids[n])
  {
  }

  lemma ContentsAbove(objs: seq<Obj>, a: nat)
    requires Ordered(objs) && a < |objs|
    ensures var kids := Contents(objs[a].body);
            && (forall i | 0 <= i < |kids| :: Above(kids[i], a, |objs|))
            && Reach(objs, VRef(a)) == {a} + KidsReach(objs, kids, |kids|)
  {
    assert BodyAbove(objs[a].body, a, |objs|);
  }

  lemma {:induction false} ReachFrame(objs: seq<Obj>, more: seq<Obj>, lo: nat, v: Val)
    requires Ordered(objs) && Ordered(more) && SameFrom(objs, more, lo)
    requires Above(v, lo - 1, |objs|)
    ensures Reach(more, v) == Reach(objs, v)
    decreases if v.VRef? then |objs| - v.addr else 0
  {
    if v.VRef? {
      assert BodyAbove(objs[v.addr].body, v.addr, |objs|);
      var kids := Contents(objs[v.addr].body);
      forall i | 0 <= i < |kids| ensures Reach(more, kids[i]) == Reach(objs, kids[i]) {
        ReachFrame(objs, more, lo, kids[i]);
      }
    }
  }

  lemma {:induction false} ReachAbove(objs: seq<Obj>, v: Val, a: nat)
    requires Ordered(objs) && v.VRef? && Above(v, -1, |objs|) && a in Reach(objs, v)
    ensures v.addr <= a < |objs|
    decreases |objs| - v.addr
  {
    assert BodyAbove(objs[v.addr].body, v.addr, |objs|);
    if a != v.addr {
      var kids := Contents(objs[v.addr].body);
      var i :| 0 <= i < |kids| && a in Reach(objs, kids[i]);
      ReachAbove(objs, kids[i], a);
    }
  }

  /** The object at `a` is an array or a hash that has the one at `b` in it. */
  ghost predicate Contains(objs: seq<Obj>, a: nat, b: nat) {
    && a < |objs|
    && match objs[a].body
       case ArrayBody(items) => VRef(b) in items
       case HashBody(pairs) => exists i | 0 <= i < |pairs| :: pairs[i].value == VRef(b)
       case _ => false
  }

  /** The least set with `a` in it that has whatever its arrays and hashes have. */
  lemma {:induction false} ReachIsLeast(objs: seq<Obj>, a: nat, closed: set<nat>)
    requires Ordered(objs) && a < |objs|
    ensures a in Reach(objs, VRef(a))
    ensures forall b, c | b in Reach(objs, VRef(a)) && Contains(objs, b, c) :: c in Reach(objs, VRef(a))
    ensures a in closed && (forall b, c | b in closed && Contains(objs, b, c) :: c in closed)
        ==> Reach(objs, VRef(a)) <= closed
  {
    forall b, c | b in Reach(objs, VRef(a)) && Contains(objs, b, c) ensures c in Reach(objs, VRef(a)) {
      ReachStep(objs, a, b, c);
    }
    if a in closed && forall b, c | b in closed && Contains(objs, b, c) :: c in closed {
      ReachWithin(objs, a, closed);
    }
  }

  lemma {:induction false} HeldIsKid(objs: seq<Obj>, a: nat, b: nat) returns (i: nat)
    requires Ordered(objs) && Contains(objs, a, b)
    ensures i < |Contents(objs[a].body)| && Contents(objs[a].body)[i] == VRef(b)
    ensures a < b < |objs|
  {
    assert BodyAbove(objs[a].body, a, |objs|);
    var kids := Contents(objs[a].body);
    match objs[a].body
    case ArrayBody(items) => i :| 0 <= i < |items| && items[i] == VRef(b);
    case HashBody(pairs) => i :| 0 <= i < |pairs| && pairs[i].value == VRef(b);
  }

  lemma {:induction false} ReachStep(objs: seq<Obj>, a: nat, b: nat, c: nat)
    requires Ordered(objs) && a < |objs| && b in Reach(objs, VRef(a)) && Contains(objs, b, c)
    ensures c in Reach(objs, VRef(a))
    decreases |objs| - a
  {
    assert BodyAbove(objs[a].body, a, |objs|);
    var kids := Contents(objs[a].body);
    if a == b {
      var i := HeldIsKid(objs, a, c);
      assert c in Reach(objs, kids[i]);
    } else {
      var i :| 0 <= i < |kids| && b in Reach(objs, kids[i]);
      ReachStep(objs, kids[i].addr, b, c);
    }
  }

  lemma {:induction false} ReachWithin(objs: seq<Obj>, a: nat, closed: set<nat>)
    requires Ordered(objs) && a < |objs| && a in closed
    requires forall b, c | b in closed && Contains(objs, b, c) :: c in closed
    ensures Reach(objs, VRef(a)) <= closed
    decreases |objs| - a
  {
    assert BodyAbove(objs[a].body, a, |objs|);
    var kids := Contents(objs[a].body);
    forall i | 0 <= i < |kids| ensures Reach(objs, kids[i]) <= closed {
      if kids[i].VRef? {
        assert Contains(objs, a, kids[i].addr);
        ReachWithin(objs, kids[i].addr, closed);
      }
    }
  }

  /** The heap with exactly these further objects frozen. */
  ghost function FreezeAll(objs: seq<Obj>, which: set<nat>): seq<Obj> {
    seq(|objs|, a requires 0 <= a < |objs| => if a in which then objs[a].(frozen := true) else objs[a])
  }

  lemma FreezeAllOrdered(objs: seq<Obj>, which: set<nat>)
    requires Ordered(objs)
    ensures Ordered(FreezeAll(objs, which)) && SameFrom(objs, FreezeAll(objs, which), 0)
  {
    var more := FreezeAll(objs, which);
    forall a | 0 <= a < |more| ensures BodyAbove(more[a].body, a, |more|) {
      assert BodyAbove(objs[a].body, a, |objs|);
    }
  }

  lemma FreezeAllTwice(objs: seq<Obj>, s: set<nat>, t: set<nat>)
    ensures FreezeAll(FreezeAll(objs, s), t) == FreezeAll(objs, s + t)
  {
  }

  /** Deep freezing from one place does not change what another reaches. */
  lemma ReachFreezeAll(objs: seq<Obj>, which: set<nat>, v: Val)
    requires Ordered(objs) && Above(v, -1, |objs|)
    ensures Ordered(FreezeAll(objs, which))
    ensures Reach(FreezeAll(objs, which), v) == Reach(objs, v)
  {
    FreezeAllOrdered(objs, which);
    ReachFrame(objs, FreezeAll(objs, which), 0, v);
  }

  lemma FreezeStep(objs: seq<Obj>, done: set<nat>, kid: Val)
    requires Ordered(objs) && Above(kid, -1, |objs|)
    ensures Ordered(FreezeAll(objs, done))
    ensures FreezeAll(FreezeAll(objs, done), Reach(FreezeAll(objs, done), kid))
         == FreezeAll(objs, done + Reach(objs, kid))
  {
    ReachFreezeAll(objs, done, kid);
    FreezeAllTwice(objs, done, Reach(objs, kid));
  }

  class Heap {
    var objs: seq<Obj>

    method Alloc(body: Body) returns (a: nat)
      modifies this
      ensures a == |old(objs)| && objs == old(objs) + [Obj(body, false)]
    {
      a := |objs|;
      objs := objs + [Obj(body, false)];
    }

    /** Ruby raises FrozenError when a frozen object is written to, so every
        write demands an unfrozen object. */
    method ArrayPush(a: nat, v: Val)
      requires a < |objs| && objs[a].body.ArrayBody? && !objs[a].frozen
      modifies this
      ensures objs == old(objs)[a := Obj(ArrayBody(old(objs)[a].body.items + [v]), false)]
    {
      objs := objs[a := Obj(ArrayBody(objs[a].body.items + [v]), false)];
    }

    method HashAset(a: nat, key: HKey, v: Val)
      requires a < |objs| && objs[a].body.HashBody? && !objs[a].frozen
      modifies this
      ensures |objs| == |old(objs)| && objs[a].body.HashBody? && !objs[a].frozen
      ensures forall b | 0 <= b < |objs| && b != a :: objs[b] == old(objs)[b]
      ensures objs[a].body.pairs == HPut(old(objs)[a].body.pairs, HPair(key, v))
      ensures HKeys(objs[a].body.pairs)
           == var keys := HKeys(old(objs)[a].body.pairs); if key in keys then keys else keys + [key]
      ensures forall k :: HGet(objs[a].body.pairs, k)
                       == if k == key then Some(v) else HGet(old(objs)[a].body.pairs, k)
    {
      HPutMeans(objs[a].body.pairs, HPair(key, v));
      objs := objs[a := Obj(HashBody(HPut(objs[a].body.pairs, HPair(key, v))), false)];
    }

    method IvarSet(a: nat, name: string, v: Val)
      requires a < |objs| && objs[a].body.InstanceBody? && !objs[a].frozen
      modifies this
      ensures objs == old(objs)[a := Obj(InstanceBody(old(objs)[a].body.ivars[name := v]), false)]
    {
      objs := objs[a := Obj(InstanceBody(objs[a].body.ivars[name := v]), false)];
    }

    method Freeze(v: Val)
      requires Above(v, -1, |objs|)
      modifies this
      ensures objs == if v.VRef? then FreezeAll(old(objs), {v.addr}) else old(objs)
    {
      if v.VRef? {
        objs := objs[v.addr := objs[v.addr].(frozen := true)];
      }
    }

    /** Freezes exactly what is reachable through arrays and hashes. */
    method DeepFreeze(v: Val)
      requires Ordered(objs) && Above(v, -1, |objs|)
      modifies this
      ensures objs == FreezeAll(old(objs), Reach(old(objs), v))
      decreases if v.VRef? then |objs| - v.addr else 0, 0
    {
      ghost var objs0 := objs;
      Freeze(v);
      if v.VRef? {
        var kids := Contents(objs[v.addr].body);
        assert kids == Contents(objs0[v.addr].body);
        ContentsAbove(objs0, v.addr);
        FreezeKids(kids, v.addr, objs0);
      } else {
        assert FreezeAll(objs, {}) == objs;
      }
    }

    /** Goes on to the contents of `a`, itself already frozen. */
    method FreezeKids(kids: seq<Val>, ghost a: nat, ghost objs0: seq<Obj>)
      requires Ordered(objs0) && a < |objs0| && objs == FreezeAll(objs0, {a})
      requires forall i | 0 <= i < |kids| :: Above(kids[i], -1, |objs0|) && Above(kids[i], a, |objs0|)
      modifies this
      ensures objs == FreezeAll(objs0, {a} + KidsReach(objs0, kids, |kids|))
      decreases |objs| - a - 1, 1
    {
      assert KidsReach(objs0, kids, 0) == {};
      for i := 0 to |kids|
        invariant objs == FreezeAll(objs0, {a} + KidsReach(objs0, kids, i))
      {
        FreezeStep(objs0, {a} + KidsReach(objs0, kids, i), kids[i]);
        DeepFreeze(kids[i]);
        KidsReachStep(objs0, kids, i);
        assert {a} + KidsReach(objs0, kids, i + 1)
            == ({a} + KidsReach(objs0, kids, i)) + Reach(objs0, kids[i]);
      }
    }
  }

  /** Storing into a hash by key. */
  function HPut(pairs: seq<HPair>, put: HPair): seq<HPair> {
    if pairs == [] then [put]
    else if pairs[0].key == put.key then [put] + pairs[1..]
    else [pairs[0]] + HPut(pairs[1..], put)
  }

  function HKeys(pairs: seq<HPair>): seq<HKey> {
    seq(|pairs|, i requires 0 <= i < |pairs| => pairs[i].key)
  }

  function HGet(pairs: seq<HPair>, key: HKey): Option<Val> {
    if pairs == [] then None
    else if pairs[0].key == key then Some(pairs[0].value)
    else HGet(pairs[1..], key)
  }

  /** A store is found under its key and nowhere else; a known key keeps its
      place, a new one goes last. */
  lemma {:induction false} HPutMeans(pairs: seq<HPair>, put: HPair)
    ensures HKeys(HPut(pairs, put))
         == if put.key in HKeys(pairs) then HKeys(pairs) else HKeys(pairs) + [put.key]
    ensures forall key :: HGet(HPut(pairs, put), key) == if key == put.key then Some(put.value) else HGet(pairs, key)
  {
    if pairs != [] {
      assert HKeys(pairs) == [pairs[0].key] + HKeys(pairs[1..]);
      if pairs[0].key != put.key {
        HPutMeans(pairs[1..], put);
        assert HKeys(HPut(pairs, put)) == [pairs[0].key] + HKeys(HPut(pairs[1..], put));
      }
    }
  }

  function ReadPairs(objs: seq<Obj>, pairs: seq<HPair>): seq<RPair>
    requires Ordered(objs) && forall i | 0 <= i < |pairs| :: Above(pairs[i].value, -1, |objs|)
  {
    seq(|pairs|, i requires 0 <= i < |pairs| => RPair(ReadKey(pairs[i].key), ReadBack(objs, pairs[i].value)))
  }

  lemma {:induction false} HPutAbove(pairs: seq<HPair>, put: HPair, lo: int, hi: int)
    requires forall i | 0 <= i < |pairs| :: Above(pairs[i].value, lo, hi)
    requires Above(put.value, lo, hi)
    ensures forall i | 0 <= i < |HPut(pairs, put)| :: Above(HPut(pairs, put)[i].value, lo, hi)
  {
    if pairs != [] {
      HPutAbove(pairs[1..], put, lo, hi);
    }
  }

  /** Reading commutes with storing. */
  lemma {:induction false} HPutReads(objs: seq<Obj>, pairs: seq<HPair>, put: HPair)
    requires Ordered(objs) && Above(put.value, -1, |objs|)
    requires forall i | 0 <= i < |pairs| :: Above(pairs[i].value, -1, |objs|)
    ensures forall i | 0 <= i < |HPut(pairs, put)| :: Above(HPut(pairs, put)[i].value, -1, |objs|)
    ensures ReadPairs(objs, HPut(pairs, put))
         == HashPut(ReadPairs(objs, pairs), RPair(ReadKey(put.key), ReadBack(objs, put.value)))
  {
    HPutAbove(pairs, put, -1, |objs|);
    var read := RPair(ReadKey(put.key), ReadBack(objs, put.value));
    if pairs != [] {
      HPutReads(objs, pairs[1..], put);
      assert ReadPairs(objs, pairs)[1..] == ReadPairs(objs, pairs[1..]);
      if pairs[0].key == put.key {
        assert ReadPairs(objs, [put] + pairs[1..]) == [read] + ReadPairs(objs, pairs[1..]);
      } else {
        assert ReadPairs(objs, HPut(pairs, put))
            == [ReadPairs(objs, pairs)[0]] + ReadPairs(objs, HPut(pairs[1..], put));
      }
    }
  }
}
