/** Validation does not depend on the order of dict entries: inputs that agree
    up to key order, at any depth, get the same issues (as a multiset) and
    outputs that agree up to key order. JSON objects and Ruby hashes list
    their keys in different orders, so this is what lets the two input modes
    agree. */
module KeyOrder {
  import opened Wrappers
  import opened Values
  import opened Schema
  import opened Paths
  import opened Validation
  import opened Outcomes
  import opened Conformance

  /** The same value up to the order of dict entries, at every depth. */
  predicate Alike(v: Value, w: Value)
    decreases v
  {
    match v
    case List(items) =>
      w.List? && |w.items| == |items| && forall i | 0 <= i < |items| :: Alike(items[i], w.items[i])
    case Dict(entries) => w.Dict? && EntriesAlike(entries, w.entries)
    case Struct(names, fields, extras) =>
      && w.Struct? && w.names == names && |w.fields| == |fields|
      && (forall i | 0 <= i < |fields| :: SlotAlike(fields[i], w.fields[i]))
      && EntriesAlike(extras, w.extras)
    case _ => v == w
  }

  predicate SlotAlike(s: Option<Value>, t: Option<Value>)
    decreases s
  {
    match s
    case Some(x) => t.Some? && Alike(x, t.value)
    case None => t.None?
  }

  predicate EntriesAlike(es: seq<Entry>, fs: seq<Entry>)
    decreases es
  {
    && (forall i | 0 <= i < |es| ::
          match DictFind(fs, es[i].key)
          case Some(x) => Alike(es[i].value, x)
          case None => false)
    && (forall j | 0 <= j < |fs| :: fs[j].key in Keys(es))
  }

  lemma {:induction false} CollectPrefix<T>(outcomes: seq<Outcome<T>>, m: nat, n: nat)
    requires n <= m <= |outcomes|
    ensures CollectFirst(outcomes[..m], n) == CollectFirst(outcomes, n)
  {
    if n > 0 {
      CollectPrefix(outcomes, m, n - 1);
    }
  }

  lemma CollectSplit<T>(outcomes: seq<Outcome<T>>)
    requires outcomes != []
    ensures var front, last := outcomes[..|outcomes| - 1], outcomes[|outcomes| - 1];
            && multiset(Collect(outcomes).issues) == multiset(Collect(front).issues) + multiset(last.issues)
            && |Collect(outcomes).values| == |Collect(front).values| + if last.value.Some? then 1 else 0
  {
    CollectPrefix(outcomes, |outcomes| - 1, |outcomes| - 1);
  }

  function Without<T>(s: seq<T>, j: nat): seq<T>
    requires j < |s|
  {
    s[..j] + s[j + 1..]
  }

  /** Taking one outcome out takes out its issues and its value. */
  lemma {:induction false} CollectWithout<T>(outcomes: seq<Outcome<T>>, j: nat)
    requires j < |outcomes|
    ensures multiset(Collect(outcomes).issues)
         == multiset(Collect(Without(outcomes, j)).issues) + multiset(outcomes[j].issues)
    ensures |Collect(outcomes).values|
         == |Collect(Without(outcomes, j)).values| + if outcomes[j].value.Some? then 1 else 0
    decreases |outcomes|
  {
    var last := |outcomes| - 1;
    CollectSplit(outcomes);
    if j == last {
      assert Without(outcomes, j) == outcomes[..last];
    } else {
      CollectWithout(outcomes[..last], j);
      var rest := Without(outcomes, j);
      CollectSplit(rest);
      assert rest[..|rest| - 1] == Without(outcomes[..last], j);
    }
  }

  ghost predicate Matching<T>(ks: seq<string>, rs: seq<Outcome<T>>, ls: seq<string>, qs: seq<Outcome<T>>) {
    && |ks| == |rs| && |ls| == |qs| && Distinct(ks) && Distinct(ls)
    && (forall i | 0 <= i < |ks| :: ks[i] in ls)
    && (forall j | 0 <= j < |ls| :: ls[j] in ks)
    && forall i, j | 0 <= i < |ks| && 0 <= j < |ls| && ks[i] == ls[j] ::
         && multiset(rs[i].issues) == multiset(qs[j].issues)
         && (rs[i].value.Some? <==> qs[j].value.Some?)
  }

  lemma WithoutKeys(ks: seq<string>, ls: seq<string>, j: nat)
    requires Distinct(ks) && Distinct(ls) && ks != [] && j < |ls| && ls[j] == ks[|ks| - 1]
    requires forall i | 0 <= i < |ks| :: ks[i] in ls
    requires forall m | 0 <= m < |ls| :: ls[m] in ks
    ensures Distinct(ks[..|ks| - 1]) && Distinct(Without(ls, j))
    ensures forall k | k in ks[..|ks| - 1] :: k in Without(ls, j)
    ensures forall l | l in Without(ls, j) :: l in ks[..|ks| - 1]
  {
    var last := |ks| - 1;
    var ls' := Without(ls, j);
    forall i | 0 <= i < last ensures ks[..last][i] in ls' {
      var m :| 0 <= m < |ls| && ls[m] == ks[i];
      assert m != j;
      assert ls'[if m < j then m else m - 1] == ks[i];
    }
    forall m | 0 <= m < |ls'| ensures ls'[m] in ks[..last] {
      var m' := if m < j then m else m + 1;
      assert ls'[m] == ls[m'];
      var i :| 0 <= i < |ks| && ks[i] == ls[m'];
      assert i != last;
      assert ks[..last][i] == ls'[m];
    }
  }

  lemma MatchingWithout<T>(ks: seq<string>, rs: seq<Outcome<T>>, ls: seq<string>, qs: seq<Outcome<T>>, j: nat)
    requires Matching(ks, rs, ls, qs) && ks != [] && j < |ls| && ls[j] == ks[|ks| - 1]
    ensures Matching(ks[..|ks| - 1], rs[..|ks| - 1], Without(ls, j), Without(qs, j))
  {
    WithoutKeys(ks, ls, j);
    var ls', qs' := Without(ls, j), Without(qs, j);
    forall i, m | 0 <= i < |ks| - 1 && 0 <= m < |ls'| && ks[i] == ls'[m]
      ensures multiset(rs[i].issues) == multiset(qs'[m].issues)
      ensures rs[i].value.Some? <==> qs'[m].value.Some?
    {
      var m' := if m < j then m else m + 1;
      assert ls'[m] == ls[m'] && qs'[m] == qs[m'];
    }
  }

  lemma OtherNonEmpty<T>(ks: seq<string>, rs: seq<Outcome<T>>, ls: seq<string>, qs: seq<Outcome<T>>)
    requires Matching(ks, rs, ls, qs) && ls != []
    ensures ks != []
  {
    assert ls[0] in ks;
  }

  /** Outcomes matched up by distinct keys collect alike, in whatever order. */
  lemma {:induction false} MatchingCollect<T>(ks: seq<string>, rs: seq<Outcome<T>>,
                                              ls: seq<string>, qs: seq<Outcome<T>>)
    requires Matching(ks, rs, ls, qs)
    ensures multiset(Collect(rs).issues) == multiset(Collect(qs).issues)
    ensures |Collect(rs).values| == |Collect(qs).values|
    decreases |ks|
  {
    if ls != [] {
      OtherNonEmpty(ks, rs, ls, qs);
    }
    if ks != [] {
      var last := |ks| - 1;
      assert ks[last] in ls;
      var j :| 0 <= j < |ls| && ls[j] == ks[last];
      CollectSplit(rs);
      CollectWithout(qs, j);
      MatchingWithout(ks, rs, ls, qs, j);
      MatchingCollect(ks[..last], rs[..last], Without(ls, j), Without(qs, j));
    }
  }

  lemma {:induction false} PairwiseCollect<T>(rs: seq<Outcome<T>>, qs: seq<Outcome<T>>, n: nat)
    requires |rs| == |qs| && n <= |rs|
    requires forall i | 0 <= i < |rs| ::
               && multiset(rs[i].issues) == multiset(qs[i].issues)
               && (rs[i].value.Some? <==> qs[i].value.Some?)
    ensures multiset(CollectFirst(rs, n).issues) == multiset(CollectFirst(qs, n).issues)
    ensures |CollectFirst(rs, n).values| == |CollectFirst(qs, n).values|
  {
    if n > 0 {
      PairwiseCollect(rs, qs, n - 1);
    }
  }

  lemma AlikeFind(es: seq<Entry>, fs: seq<Entry>, key: string)
    requires EntriesAlike(es, fs)
    ensures SlotAlike(DictFind(es, key), DictFind(fs, key))
  {
    DictFindAbsent(es, key);
    DictFindAbsent(fs, key);
    if key in Keys(es) {
      var k := DictFindIndex(es, key);
    } else if key in Keys(fs) {
      var j := DictFindIndex(fs, key);
      assert false;
    }
  }

  lemma AlikeKeys(es: seq<Entry>, fs: seq<Entry>)
    requires EntriesAlike(es, fs)
    ensures forall i | 0 <= i < |es| :: es[i].key in Keys(fs)
  {
    forall i | 0 <= i < |es| ensures es[i].key in Keys(fs) {
      DictFindAbsent(fs, es[i].key);
    }
  }

  /** Matching entries of alike dicts with distinct keys are alike. */
  lemma AlikeAt(es: seq<Entry>, fs: seq<Entry>, i: nat, j: nat)
    requires EntriesAlike(es, fs) && Distinct(Keys(fs))
    requires i < |es| && j < |fs| && es[i].key == fs[j].key
    ensures Alike(es[i].value, fs[j].value)
  {
    DictFindAt(fs, j);
  }

  /** Which extras are kept depends on the key alone. */
  lemma {:induction false} ExtrasFind(names: seq<string>, extra: ExtraBehavior, path: Path,
                                      entries: seq<Entry>, n: nat, key: string)
    requires n <= |entries|
    ensures DictFind(CollectFirst(ExtraOutcomes(names, extra, path, entries), n).values, key)
         == if key !in names && extra.Allow? then DictFind(entries[..n], key) else None
  {
    if n > 0 {
      ExtrasFind(names, extra, path, entries, n - 1, key);
      var outcomes := ExtraOutcomes(names, extra, path, entries);
      var front := CollectFirst(outcomes, n - 1).values;
      assert outcomes[n - 1] == ExtraOutcome(names, extra, path, entries[n - 1]);
      FindAppend(entries[..n - 1], [entries[n - 1]], key);
      assert entries[..n] == entries[..n - 1] + [entries[n - 1]];
      FindAppend(front, [entries[n - 1]], key);
      var out := CollectFirst(outcomes, n).values;
      assert out == if outcomes[n - 1].value.Some? then front + [entries[n - 1]] else front;
    }
  }

  lemma ExtrasAlike(names: seq<string>, extra: ExtraBehavior, path: Path, es: seq<Entry>, fs: seq<Entry>)
    requires EntriesAlike(es, fs) && Distinct(Keys(es))
    ensures EntriesAlike(Collect(ExtraOutcomes(names, extra, path, es)).values,
                         Collect(ExtraOutcomes(names, extra, path, fs)).values)
  {
    var os := Collect(ExtraOutcomes(names, extra, path, es)).values;
    var ps := Collect(ExtraOutcomes(names, extra, path, fs)).values;
    assert es[..|es|] == es && fs[..|fs|] == fs;
    ExtrasConform(names, extra, path, es);
    ExtrasConform(names, extra, path, fs);
    forall i | 0 <= i < |os|
      ensures match DictFind(ps, os[i].key)
              case Some(x) => Alike(os[i].value, x)
              case None => false
    {
      var key := os[i].key;
      ExtrasFind(names, extra, path, fs, |fs|, key);
      var k :| 0 <= k < |es| && es[k] == os[i];
      AlikeFind(es, fs, key);
    }
    forall j | 0 <= j < |ps| ensures ps[j].key in Keys(os) {
      var key := ps[j].key;
      ExtrasFind(names, extra, path, es, |es|, key);
      assert key in Keys(es);
      DictFindAbsent(es, key);
      DictFindAbsent(os, key);
    }
  }

  lemma ExtrasReport(names: seq<string>, extra: ExtraBehavior, path: Path, es: seq<Entry>, fs: seq<Entry>)
    requires EntriesAlike(es, fs) && Distinct(Keys(es)) && Distinct(Keys(fs))
    ensures multiset(Collect(ExtraOutcomes(names, extra, path, es)).issues)
         == multiset(Collect(ExtraOutcomes(names, extra, path, fs)).issues)
  {
    AlikeKeys(es, fs);
    MatchingCollect(Keys(es), ExtraOutcomes(names, extra, path, es), Keys(fs), ExtraOutcomes(names, extra, path, fs));
  }

  /** The claim, for two outcomes: the issues are the same up to order, and so
      is whatever output there is, complete or not. */
  ghost predicate Agree(a: Outcome<Value>, b: Outcome<Value>) {
    && multiset(a.issues) == multiset(b.issues)
    && (a.value.Some? <==> b.value.Some?)
    && (a.value.Some? ==> Alike(a.value.value, b.value.value))
  }

  /** Items that agree one by one leave alike items behind. */
  lemma {:induction false} PairwiseAlike(rs: seq<Outcome<Value>>, qs: seq<Outcome<Value>>, n: nat)
    requires n <= |rs| == |qs| && forall i | 0 <= i < |rs| :: Agree(rs[i], qs[i])
    ensures |CollectFirst(rs, n).values| == |CollectFirst(qs, n).values|
    ensures forall k | 0 <= k < |CollectFirst(rs, n).values| ::
              Alike(CollectFirst(rs, n).values[k], CollectFirst(qs, n).values[k])
  {
    if n > 0 {
      PairwiseAlike(rs, qs, n - 1);
      assert Agree(rs[n - 1], qs[n - 1]);
    }
  }

  lemma {:induction false} ListsAgree(env: Env, ty: TypeExpr, path: Path, v: Value, w: Value)
    requires ty.List? && v.List? && Alike(v, w) && KeysDistinct(v) && KeysDistinct(w)
    ensures Agree(Validate(env, ty, path, v), Validate(env, ty, path, w))
    decreases ty, 1
  {
    var rs, qs := ItemOutcomes(env, ty.of, path, v.items), ItemOutcomes(env, ty.of, path, w.items);
    forall i | 0 <= i < |v.items| ensures Agree(rs[i], qs[i]) {
      assert rs[i] == ItemOutcome(env, ty.of, path, i, v.items[i]);
      assert qs[i] == ItemOutcome(env, ty.of, path, i, w.items[i]);
      OrderIrrelevant(env, ty.of, path + [Index(i)], v.items[i], w.items[i]);
    }
    PairwiseCollect(rs, qs, |rs|);
    PairwiseAlike(rs, qs, |rs|);
  }

  function At(env: Env, of: TypeExpr, path: Path, e: Entry): Outcome<Value> {
    Validate(env, of, path + [Key(e.key)], e.value)
  }

  lemma {:induction false} EntriesAgree(env: Env, of: TypeExpr, path: Path, es: seq<Entry>, fs: seq<Entry>)
    requires EntriesAlike(es, fs) && KeysDistinct(Value.Dict(es)) && KeysDistinct(Value.Dict(fs))
    ensures forall i, j | 0 <= i < |es| && 0 <= j < |fs| && es[i].key == fs[j].key ::
              Agree(At(env, of, path, es[i]), At(env, of, path, fs[j]))
    decreases of, 3
  {
    forall i, j | 0 <= i < |es| && 0 <= j < |fs| && es[i].key == fs[j].key
      ensures Agree(At(env, of, path, es[i]), At(env, of, path, fs[j]))
    {
      AlikeAt(es, fs, i, j);
      OrderIrrelevant(env, of, path + [Key(es[i].key)], es[i].value, fs[j].value);
    }
  }

  lemma EntriesReport(env: Env, of: TypeExpr, path: Path, es: seq<Entry>, fs: seq<Entry>)
    requires EntriesAlike(es, fs) && Distinct(Keys(es)) && Distinct(Keys(fs))
    requires forall i, j | 0 <= i < |es| && 0 <= j < |fs| && es[i].key == fs[j].key ::
               Agree(At(env, of, path, es[i]), At(env, of, path, fs[j]))
    ensures multiset(Collect(EntryOutcomes(env, of, path, es)).issues)
         == multiset(Collect(EntryOutcomes(env, of, path, fs)).issues)
    ensures |Collect(EntryOutcomes(env, of, path, es)).values| == |Collect(EntryOutcomes(env, of, path, fs)).values|
  {
    var rs, qs := EntryOutcomes(env, of, path, es), EntryOutcomes(env, of, path, fs);
    forall i, j | 0 <= i < |es| && 0 <= j < |fs| && es[i].key == fs[j].key
      ensures multiset(rs[i].issues) == multiset(qs[j].issues)
      ensures rs[i].value.Some? <==> qs[j].value.Some?
    {
      assert rs[i] == EntryOutcome(env, of, path, es[i]);
      assert qs[j] == EntryOutcome(env, of, path, fs[j]);
      assert Agree(At(env, of, path, es[i]), At(env, of, path, fs[j]));
    }
    AlikeKeys(es, fs);
    MatchingCollect(Keys(es), rs, Keys(fs), qs);
  }

  lemma {:induction false} DictsAgree(env: Env, ty: TypeExpr, path: Path, v: Value, w: Value)
    requires ty.Dict? && v.Dict? && Alike(v, w) && KeysDistinct(v) && KeysDistinct(w)
    ensures Agree(Validate(env, ty, path, v), Validate(env, ty, path, w))
    decreases ty, 1
  {
    EntriesAgree(env, ty.value, path, v.entries, w.entries);
    EntriesReport(env, ty.value, path, v.entries, w.entries);
    DictOutputsAlike(env, ty.value, path, v.entries, w.entries);
  }

  function KeptEntry(value: Option<Value>, key: string): seq<Entry> {
    if value.Some? then [Entry(key, value.value)] else []
  }

  lemma FindKept(front: seq<Entry>, value: Option<Value>, name: string, key: string)
    ensures DictFind(front + KeptEntry(value, name), key)
         == if DictFind(front, key).Some? then DictFind(front, key) else if name == key then value else None
  {
    FindAppend(front, KeptEntry(value, name), key);
  }

  lemma FindNext(entries: seq<Entry>, n: nat, key: string)
    requires n < |entries| && Distinct(Keys(entries))
    ensures DictFind(entries[..n + 1], key)
         == if entries[n].key == key then Some(entries[n].value) else DictFind(entries[..n], key)
    ensures entries[n].key == key ==> DictFind(entries[..n], key).None?
  {
    assert entries[..n + 1] == entries[..n] + [entries[n]];
    FindAppend(entries[..n], [entries[n]], key);
    if entries[n].key == key {
      DictFindAbsent(entries[..n], key);
      forall k | 0 <= k < n ensures Keys(entries[..n])[k] != key {
        assert Keys(entries)[k] != Keys(entries)[n];
      }
    }
  }

  /** With distinct keys, what is kept under a key is what its value validates
      to, if to anything. */
  lemma {:induction false} EntriesFind(env: Env, of: TypeExpr, path: Path, entries: seq<Entry>, n: nat, key: string)
    requires n <= |entries| && Distinct(Keys(entries))
    ensures DictFind(CollectFirst(EntryOutcomes(env, of, path, entries), n).values, key)
         == match DictFind(entries[..n], key)
            case Some(x) => Validate(env, of, path + [Key(key)], x).value
            case None => None
  {
    if n > 0 {
      EntriesFind(env, of, path, entries, n - 1, key);
      var outcomes, e := EntryOutcomes(env, of, path, entries), entries[n - 1];
      var front, value := CollectFirst(outcomes, n - 1).values, At(env, of, path, e).value;
      assert outcomes[n - 1] == EntryOutcome(env, of, path, e);
      assert CollectFirst(outcomes, n).values == front + KeptEntry(value, e.key);
      FindKept(front, value, e.key, key);
      FindNext(entries, n - 1, key);
    }
  }

  /** An entry that is kept is found again under its key. */
  lemma KeptIsFound(env: Env, of: TypeExpr, path: Path, entries: seq<Entry>, k: nat) returns (i: nat)
    requires Distinct(Keys(entries)) && k < |Collect(EntryOutcomes(env, of, path, entries)).values|
    ensures var kept := Collect(EntryOutcomes(env, of, path, entries)).values[k];
            && i < |entries| && entries[i].key == kept.key
            && At(env, of, path, entries[i]).value == Some(kept.value)
  {
    var outcomes := EntryOutcomes(env, of, path, entries);
    i := CollectValueOrigin(outcomes, k);
    assert outcomes[i] == EntryOutcome(env, of, path, entries[i]);
  }

  lemma DictOutputsAlike(env: Env, of: TypeExpr, path: Path, es: seq<Entry>, fs: seq<Entry>)
    requires EntriesAlike(es, fs) && Distinct(Keys(es)) && Distinct(Keys(fs))
    requires forall i, j | 0 <= i < |es| && 0 <= j < |fs| && es[i].key == fs[j].key ::
               Agree(At(env, of, path, es[i]), At(env, of, path, fs[j]))
    ensures EntriesAlike(Collect(EntryOutcomes(env, of, path, es)).values,
                         Collect(EntryOutcomes(env, of, path, fs)).values)
  {
    var os := Collect(EntryOutcomes(env, of, path, es)).values;
    var ps := Collect(EntryOutcomes(env, of, path, fs)).values;
    assert es[..|es|] == es && fs[..|fs|] == fs;
    forall k | 0 <= k < |os|
      ensures match DictFind(ps, os[k].key)
              case Some(x) => Alike(os[k].value, x)
              case None => false
    {
      var i := KeptIsFound(env, of, path, es, k);
      AlikeFind(es, fs, os[k].key);
      DictFindAt(es, i);
      var j := DictFindIndex(fs, os[k].key);
      EntriesFind(env, of, path, fs, |fs|, os[k].key);
      assert Agree(At(env, of, path, es[i]), At(env, of, path, fs[j]));
    }
    forall k | 0 <= k < |ps| ensures ps[k].key in Keys(os) {
      var j := KeptIsFound(env, of, path, fs, k);
      AlikeFind(es, fs, ps[k].key);
      DictFindAt(fs, j);
      var i := DictFindIndex(es, ps[k].key);
      EntriesFind(env, of, path, es, |es|, ps[k].key);
      assert Agree(At(env, of, path, es[i]), At(env, of, path, fs[j]));
      DictFindAbsent(os, ps[k].key);
    }
  }

  lemma {:induction false} FieldsAgree(env: Env, ty: TypeExpr, path: Path, es: seq<Entry>, fs: seq<Entry>)
    requires ty.Struct? && EntriesAlike(es, fs) && KeysDistinct(Value.Dict(es)) && KeysDistinct(Value.Dict(fs))
    ensures var a, b := Collect(FieldOutcomes(env, ty, path, es)), Collect(FieldOutcomes(env, ty, path, fs));
            && multiset(a.issues) == multiset(b.issues)
            && |a.values| == |b.values| && forall i | 0 <= i < |a.values| :: SlotAlike(a.values[i], b.values[i])
    decreases ty, 0
  {
    var rs, qs := FieldOutcomes(env, ty, path, es), FieldOutcomes(env, ty, path, fs);
    forall i | 0 <= i < |ty.fields|
      ensures multiset(rs[i].issues) == multiset(qs[i].issues)
      ensures rs[i].value.Some? && qs[i].value.Some?
      ensures SlotAlike(rs[i].value.value, qs[i].value.value)
    {
      var field := ty.fields[i];
      assert rs[i] == FieldOutcome(env, field, path, es);
      assert qs[i] == FieldOutcome(env, field, path, fs);
      AlikeFind(es, fs, field.name);
      if DictFind(es, field.name).Some? {
        FindKeysDistinct(es, field.name);
        FindKeysDistinct(fs, field.name);
        OrderIrrelevant(env, field.ty, path + [Key(field.name)],
                        DictFind(es, field.name).value, DictFind(fs, field.name).value);
      }
    }
    PairwiseCollect(rs, qs, |rs|);
    CollectCount(rs);
    CollectCount(qs);
  }

  lemma {:induction false} StructsAgree(env: Env, ty: TypeExpr, path: Path, v: Value, w: Value)
    requires ty.Struct? && v.Dict? && Alike(v, w) && KeysDistinct(v) && KeysDistinct(w)
    ensures Agree(Validate(env, ty, path, v), Validate(env, ty, path, w))
    decreases ty, 1
  {
    var names, extra := FieldNames(ty.fields), EffectiveExtra(env, ty.extra, path);
    FieldsAgree(env, ty, path, v.entries, w.entries);
    ExtrasReport(names, extra, path, v.entries, w.entries);
    ExtrasAlike(names, extra, path, v.entries, w.entries);
  }

  /** Only lists, dicts and structs can be alike without being the same, and none
      of these is a scalar of any kind. */
  lemma {:induction false} ScalarsSame(env: Env, primitive: PrimitiveType, path: Path, v: Value, w: Value)
    requires Alike(v, w) && !primitive.Any?
    ensures ValidatePrimitive(env, primitive, path, v) == ValidatePrimitive(env, primitive, path, w)
  {
    if v.List? || v.Dict? || v.Struct? {
      assert w.List? || w.Dict? || w.Struct?;
    } else {
      assert v == w;
    }
  }

  lemma {:induction false} ScalarOut(env: Env, primitive: PrimitiveType, path: Path, v: Value)
    requires !primitive.Any? && ValidatePrimitive(env, primitive, path, v).value.Some?
    ensures var out := ValidatePrimitive(env, primitive, path, v).value.value;
            !out.List? && !out.Dict? && !out.Struct?
  {
  }

  lemma {:induction false} ScalarsAgree(env: Env, primitive: PrimitiveType, path: Path, v: Value, w: Value)
    requires Alike(v, w)
    ensures Agree(ValidatePrimitive(env, primitive, path, v), ValidatePrimitive(env, primitive, path, w))
  {
    if !primitive.Any? {
      ScalarsSame(env, primitive, path, v, w);
      if ValidatePrimitive(env, primitive, path, v).value.Some? {
        ScalarOut(env, primitive, path, v);
      }
    }
  }

  /** Inputs that agree up to key order are judged alike. */
  lemma {:induction false} OrderIrrelevant(env: Env, ty: TypeExpr, path: Path, v: Value, w: Value)
    requires Alike(v, w) && KeysDistinct(v) && KeysDistinct(w)
    ensures Agree(Validate(env, ty, path, v), Validate(env, ty, path, w))
    decreases ty, 2
  {
    match ty
    case Primitive(primitive) => ScalarsAgree(env, primitive, path, v, w);
    case Enum(_) =>
    case Optional(of) =>
      if !v.Null? {
        OrderIrrelevant(env, of, path, v, w);
      }
    case List(_, _) =>
      if v.List? {
        ListsAgree(env, ty, path, v, w);
      }
    case Dict(_, _) =>
      if v.Dict? {
        DictsAgree(env, ty, path, v, w);
      }
    case Struct(_, _) =>
      if v.Dict? {
        StructsAgree(env, ty, path, v, w);
      }
  }
}
