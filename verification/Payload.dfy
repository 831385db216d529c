/** When the stored attributes are the raw payload: exactly for input that
    already looks the way the schema writes it. */
module Payload {
  import opened Wrappers
  import opened Values
  import opened Schema
  import opened Paths
  import opened Validation
  import opened Meaning
  import opened Conformance
  import opened Ruby
  import opened RubyInput
  import opened InputFaults
  import opened NormalForms
  import opened Materialize
  import opened RoundTrip
  import opened Instances
  import opened Pipeline
  import opened BuiltObjects

  /** Every hash in it has distinct symbols for keys. */
  predicate Plain(x: RValue) {
    match x
    case RArray(items) => forall i | 0 <= i < |items| :: Plain(items[i])
    case RHash(pairs) =>
      && PairKeysDistinct(pairs)
      && forall i | 0 <= i < |pairs| :: pairs[i].key.RSymbol? && Plain(pairs[i].value)
    case RObject(_) => false
    case _ => true
  }

  /** Those of the first `n` names that the hash has as symbols, in schema order. */
  function GivenKeys(names: seq<string>, pairs: seq<RPair>, n: nat): seq<RValue>
    requires n <= |names|
  {
    if n == 0 then []
    else
      var key := RSymbol(names[n - 1]);
      GivenKeys(names, pairs, n - 1) + if key in PairKeys(pairs) then [key] else []
  }

  predicate FieldVerbatim(option: ExtraBehavior, field: FieldExpr, pairs: seq<RPair>)
    decreases field
  {
    match HashGet(pairs, RSymbol(field.name))
    case Some(x) => Verbatim(option, field.ty, false, x)
    case None => true
  }

  /** An extra that is kept as it is. */
  predicate ExtraVerbatim(names: seq<string>, extra: ExtraBehavior, pair: RPair) {
    extra.Allow? && pair.key.RString? && pair.key.s !in names && Plain(pair.value)
  }

  /** Every value is of its kind already; declared names come first, as symbols
      in schema order, and kept extras after them, as strings. */
  predicate Verbatim(option: ExtraBehavior, ty: TypeExpr, root: bool, x: RValue)
    decreases ty
  {
    match ty
    case Primitive(Any) => Plain(x)
    case Primitive(Bool) => x.RTrue? || x.RFalse?
    case Primitive(Int(_)) => x.RInteger?
    case Primitive(Float(_)) => x.RFloat?
    case Primitive(String(_)) => x.RString?
    case Primitive(Symbol) => x.RSymbol?
    case Enum(_) => x.RSymbol?
    case Optional(of) => x.RNil? || Verbatim(option, of, root, x)
    case List(of, _) => x.RArray? && forall i | 0 <= i < |x.items| :: Verbatim(option, of, false, x.items[i])
    case Dict(of, _) =>
      && x.RHash? && PairKeysDistinct(x.pairs)
      && forall i | 0 <= i < |x.pairs| :: x.pairs[i].key.RSymbol? && Verbatim(option, of, false, x.pairs[i].value)
    case Struct(fields, extra) =>
      && x.RHash? && PairKeysDistinct(x.pairs)
      && var names := FieldNames(fields);
         var given := GivenKeys(names, x.pairs, |names|);
         && given <= PairKeys(x.pairs)
         && (forall i | 0 <= i < |fields| :: FieldVerbatim(option, fields[i], x.pairs))
         && forall i | |given| <= i < |x.pairs| ::
              ExtraVerbatim(names, if root then option else extra, x.pairs[i])
  }

  /** What conversion makes of a hash, entry by entry. */
  lemma {:induction false} ConvertedPairs(pairs: seq<RPair>, path: Path)
    requires Convert(RHash(pairs), path).Success?
    ensures var v := Convert(RHash(pairs), path).value;
            && v.Dict? && |v.entries| == |pairs|
            && forall i | 0 <= i < |pairs| ::
                 && KeyText(pairs[i].key) == Some(v.entries[i].key)
                 && Convert(pairs[i].value, path + [Key(v.entries[i].key)]) == Success(v.entries[i].value)
  {
    GatherSuccess(PairResults(pairs, path), |pairs|);
    forall i | 0 <= i < |pairs|
      ensures PairResult(pairs[i], path) == Success(Convert(RHash(pairs), path).value.entries[i])
    {
      assert PairResults(pairs, path)[i] == PairResult(pairs[i], path);
    }
  }

  lemma {:induction false} ConvertedItems(items: seq<RValue>, path: Path)
    requires Convert(RArray(items), path).Success?
    ensures var v := Convert(RArray(items), path).value;
            && v.List? && |v.items| == |items|
            && forall i | 0 <= i < |items| :: Convert(items[i], path + [Index(i)]) == Success(v.items[i])
  {
    GatherSuccess(ItemResults(items, path), |items|);
    forall i | 0 <= i < |items|
      ensures Convert(items[i], path + [Index(i)]) == Success(Convert(RArray(items), path).value.items[i])
    {
      assert ItemResults(items, path)[i] == ItemResult(items[i], path, i);
    }
  }

  lemma {:induction false} ItemsBecome(items: seq<Value>)
    requires ToRuby(Value.List(items)).Success?
    ensures var xs := ToRuby(Value.List(items)).value;
            && xs.RArray? && |xs.items| == |items|
            && forall i | 0 <= i < |items| :: ToRuby(items[i]) == Success(xs.items[i])
  {
    GatherSuccess(Items(items), |items|);
    forall i | 0 <= i < |items| ensures ToRuby(items[i]) == Success(ToRuby(Value.List(items)).value.items[i]) {
      assert Items(items)[i] == ToRuby(items[i]);
    }
  }

  lemma {:induction false} SymbolsAreTexts(pairs: seq<RPair>)
    requires TextsDistinct(pairs) && forall i | 0 <= i < |pairs| :: KeyText(pairs[i].key).Some?
    ensures PairKeysDistinct(pairs)
  {
    forall i, j | 0 <= i < j < |pairs| ensures pairs[i].key != pairs[j].key {
      assert KeyText(pairs[i].key) != KeyText(pairs[j].key);
    }
  }

  /** A dict becomes the very hash it was read from exactly if all keys were
      symbols and each value becomes what it was read from. */
  lemma {:induction false} DictBecomesSame(pairs: seq<RPair>, path: Path, entries: seq<Entry>, out: seq<Entry>)
    requires Convert(RHash(pairs), path) == Success(Value.Dict(entries)) && KeyTextsDistinct(RHash(pairs))
    requires |out| == |entries| && ToRuby(Value.Dict(out)).Success?
    requires forall i | 0 <= i < |out| :: out[i].key == entries[i].key
    ensures |out| == |pairs|
    ensures forall i | 0 <= i < |out| :: ToRuby(out[i].value).Success?
    ensures PairKeysDistinct(pairs)
    ensures ToRuby(Value.Dict(out)).value == RHash(pairs)
       <==> forall i | 0 <= i < |pairs| :: pairs[i].key.RSymbol? && ToRuby(out[i].value) == Success(pairs[i].value)
  {
    ConvertedPairs(pairs, path);
    ConvertedShape(RHash(pairs), path);
    assert Keys(out) == Keys(entries);
    DictBecomesHash(out);
    SymbolsAreTexts(pairs);
    var hash := ToRuby(Value.Dict(out)).value;
    forall i | 0 <= i < |out|
      ensures hash.pairs[i] == pairs[i] <==> pairs[i].key.RSymbol? && ToRuby(out[i].value) == Success(pairs[i].value)
    {
      assert HoldsEntry(hash.pairs[i], RSymbol(out[i].key), out[i].value);
      assert KeyText(pairs[i].key) == Some(out[i].key);
    }
    assert hash.pairs == pairs <==> forall i | 0 <= i < |pairs| :: hash.pairs[i] == pairs[i];
  }

  lemma {:induction false} PlainOnDistinct(x: RValue, path: Path)
    requires Convert(x, path).Success? && KeyTextsDistinct(x) && ToRuby(Convert(x, path).value).Success?
    ensures ToRuby(Convert(x, path).value).value == x <==> Plain(x)
    decreases x
  {
    var v := Convert(x, path).value;
    match x
    case RArray(items) =>
      ConvertedItems(items, path);
      ItemsBecome(v.items);
      var xs := ToRuby(v).value.items;
      forall i | 0 <= i < |items| ensures xs[i] == items[i] <==> Plain(items[i]) {
        PlainOnDistinct(items[i], path + [Index(i)]);
      }
      assert xs == items <==> forall i | 0 <= i < |items| :: xs[i] == items[i];
    case RHash(pairs) =>
      ConvertedPairs(pairs, path);
      DictBecomesSame(pairs, path, v.entries, v.entries);
      forall i | 0 <= i < |pairs|
        ensures ToRuby(v.entries[i].value) == Success(pairs[i].value) <==> Plain(pairs[i].value)
      {
        PlainOnDistinct(pairs[i].value, path + [Key(v.entries[i].key)]);
      }
    case _ =>
  }

  lemma {:induction false} PresentIsGiven(names: seq<string>, fields: seq<Option<Value>>, pairs: seq<RPair>, n: nat)
    requires n <= |names| == |fields|
    requires forall i | 0 <= i < |names| :: fields[i].Some? <==> RSymbol(names[i]) in PairKeys(pairs)
    ensures var given, present := GivenKeys(names, pairs, n), Present(names, fields, n);
            |given| == |present| && forall k | 0 <= k < |given| :: given[k] == RSymbol(present[k].key)
  {
    if n > 0 {
      PresentIsGiven(names, fields, pairs, n - 1);
    }
  }

  /** An entry for a present field stems from that field. */
  lemma {:induction false} PresentAt(names: seq<string>, fields: seq<Option<Value>>, n: nat, k: nat) returns (i: nat)
    requires n <= |names| == |fields| && k < |Present(names, fields, n)|
    ensures i < n && fields[i].Some? && Present(names, fields, n)[k] == Entry(names[i], fields[i].value)
  {
    if fields[n - 1].Some? && k == |Present(names, fields, n)| - 1 {
      i := n - 1;
    } else {
      i := PresentAt(names, fields, n - 1, k);
    }
  }

  lemma {:induction false} UndeclaredIn(names: seq<string>, entries: seq<Entry>)
    ensures forall k | 0 <= k < |Undeclared(names, entries)| ::
              Undeclared(names, entries)[k] in entries && Undeclared(names, entries)[k].key !in names
  {
    if entries != [] {
      UndeclaredIn(names, entries[..|entries| - 1]);
    }
  }

  lemma {:induction false} UndeclaredSnoc(names: seq<string>, front: seq<Entry>, e: Entry)
    ensures Undeclared(names, front + [e]) == Undeclared(names, front) + if e.key in names then [] else [e]
  {
    assert (front + [e])[..|front|] == front;
  }

  lemma {:induction false} UndeclaredTail(names: seq<string>, entries: seq<Entry>, m: nat, n: nat)
    requires m <= n <= |entries|
    requires forall i | 0 <= i < m :: entries[i].key in names
    requires forall i | m <= i < |entries| :: entries[i].key !in names
    ensures Undeclared(names, entries[..n]) == entries[m..n]
    decreases n
  {
    if n == m {
      AllDeclared(names, entries[..n]);
    } else {
      UndeclaredTail(names, entries, m, n - 1);
      UndeclaredSnoc(names, entries[..n - 1], entries[n - 1]);
      assert entries[..n] == entries[..n - 1] + [entries[n - 1]];
      assert entries[m..n] == entries[m..n - 1] + [entries[n - 1]];
    }
  }

  lemma {:induction false} AllDeclared(names: seq<string>, entries: seq<Entry>)
    requires forall i | 0 <= i < |entries| :: entries[i].key in names
    ensures Undeclared(names, entries) == []
  {
    if entries != [] {
      AllDeclared(names, entries[..|entries| - 1]);
    }
  }

  /** What the schema makes of a converted hash, all of it nameable in Ruby. */
  ghost predicate Read(env: Env, ty: TypeExpr, root: bool, pairs: seq<RPair>, path: Path, v: Value, out: Value) {
    && ty.Struct? && NamesDistinct(ty) && KeyTextsDistinct(RHash(pairs))
    && Convert(RHash(pairs), path) == Success(v)
    && Yields(env, ty, root, v, out) && ToRuby(out).Success?
  }

  lemma {:induction false} YieldsDistinct(env: Env, ty: TypeExpr, root: bool, v: Value, out: Value)
    requires StructFree(v) && KeysDistinct(v) && NamesDistinct(ty) && Yields(env, ty, root, v, out)
    ensures KeysDistinct(out)
  {
    var place := if root then [] else [Key("")];
    ValidationMeans(env, ty, place, v, out);
    OutputsStayDistinct(env, ty, place, v);
  }

  /** The value of a declared name becomes the Ruby value it was read from
      exactly if that is verbatim. */
  lemma {:induction false} FieldValue(env: Env, ty: TypeExpr, root: bool, pairs: seq<RPair>, path: Path, v: Value,
                                      out: Value, i: nat, k: nat)
    requires Read(env, ty, root, pairs, path, v, out)
    requires i < |ty.fields| && k < |pairs| && KeyText(pairs[k].key) == Some(ty.fields[i].name)
    ensures out.fields[i].Some?
    ensures ToRuby(out.fields[i].value) == Success(pairs[k].value)
       <==> Verbatim(env.extraBehavior, ty.fields[i].ty, false, pairs[k].value)
    decreases ty, 1
  {
    ConvertedPairs(pairs, path);
    ConvertedShape(RHash(pairs), path);
    DictFindAt(v.entries, k);
    assert YieldsSlot(env, ty.fields[i], v.entries, out.fields[i]);
    MaterializeIsExact(out);
    assert out.names[i] == ty.fields[i].name;
    MaterializeIsExact(out.fields[i].value);
    VerbatimOnDistinct(env, ty.fields[i].ty, false, pairs[k].value, path + [Key(v.entries[k].key)], v.entries[k].value,
                out.fields[i].value);
  }

  lemma {:induction false} TextInKeys(pairs: seq<RPair>, entries: seq<Entry>, name: string)
    requires |entries| == |pairs|
    requires forall i | 0 <= i < |pairs| :: KeyText(pairs[i].key) == Some(entries[i].key)
    ensures name in Keys(entries) <==> RSymbol(name) in PairKeys(pairs) || RString(name) in PairKeys(pairs)
  {
    forall k | 0 <= k < |pairs|
      ensures Keys(entries)[k] == name <==> PairKeys(pairs)[k] in {RSymbol(name), RString(name)}
    {
    }
    if name in Keys(entries) {
      var k :| 0 <= k < |entries| && Keys(entries)[k] == name;
      assert PairKeys(pairs)[k] in PairKeys(pairs);
    }
  }

  lemma {:induction false} DeclaredOrNot(env: Env, ty: TypeExpr, root: bool, pairs: seq<RPair>, path: Path, v: Value,
                                         out: Value)
    requires Read(env, ty, root, pairs, path, v, out)
    ensures out.names == FieldNames(ty.fields) && |out.fields| == |out.names| && Distinct(out.names)
    ensures PairKeysDistinct(pairs)
    ensures forall i | 0 <= i < |out.names| :: out.fields[i].Some? <==>
              RSymbol(out.names[i]) in PairKeys(pairs) || RString(out.names[i]) in PairKeys(pairs)
  {
    ConvertedPairs(pairs, path);
    SymbolsAreTexts(pairs);
    forall i | 0 <= i < |out.names|
      ensures out.fields[i].Some? <==>
                RSymbol(out.names[i]) in PairKeys(pairs) || RString(out.names[i]) in PairKeys(pairs)
    {
      assert YieldsSlot(env, ty.fields[i], v.entries, out.fields[i]);
      DictFindAbsent(v.entries, out.names[i]);
      TextInKeys(pairs, v.entries, out.names[i]);
    }
  }

  lemma {:induction false} HashGetAt(pairs: seq<RPair>, k: nat)
    requires PairKeysDistinct(pairs) && k < |pairs|
    ensures HashGet(pairs, pairs[k].key) == Some(pairs[k].value)
  {
    if k > 0 {
      assert pairs[0].key != pairs[k].key;
      HashGetAt(pairs[1..], k - 1);
    }
  }

  lemma {:induction false} HashGetIndex(pairs: seq<RPair>, key: RValue) returns (k: nat)
    requires HashGet(pairs, key).Some?
    ensures k < |pairs| && pairs[k] == RPair(key, HashGet(pairs, key).value)
  {
    if pairs[0].key == key {
      k := 0;
    } else {
      k := HashGetIndex(pairs[1..], key);
      k := k + 1;
    }
  }

  /** The pairs of a hash that was written by the schema: declared and extra. */
  ghost predicate WrittenAs(out: Value, declared: seq<RPair>, extras: seq<RPair>) {
    && out.Struct? && |out.names| == |out.fields|
    && var present := Present(out.names, out.fields, |out.names|);
       && |declared| == |present| && |extras| == |out.extras|
       && (forall k | 0 <= k < |present| :: HoldsEntry(declared[k], RSymbol(present[k].key), present[k].value))
       && forall k | 0 <= k < |extras| :: HoldsEntry(extras[k], RString(out.extras[k].key), out.extras[k].value)
  }

  lemma {:induction false} StructWritten(env: Env, ty: TypeExpr, root: bool, pairs: seq<RPair>, path: Path, v: Value,
                                         out: Value)
    returns (declared: seq<RPair>, extras: seq<RPair>)
    requires Read(env, ty, root, pairs, path, v, out)
    ensures ToRuby(out).value == RHash(declared + extras) && WrittenAs(out, declared, extras)
  {
    ConvertedShape(RHash(pairs), path);
    YieldsDistinct(env, ty, root, v, out);
    declared, extras := StructBecomesHash(out);
  }

  /** If the written hash is the payload, symbols are exactly the present fields. */
  lemma {:induction false} WrittenSymbols(out: Value, declared: seq<RPair>, extras: seq<RPair>, i: nat)
    requires WrittenAs(out, declared, extras) && Distinct(out.names) && i < |out.names|
    ensures out.fields[i].Some? <==> RSymbol(out.names[i]) in PairKeys(declared + extras)
  {
    var present, pairs := Present(out.names, out.fields, |out.names|), declared + extras;
    if out.fields[i].Some? {
      FindPresent(out.names, out.fields, |out.names|, i);
      var k := DictFindIndex(present, out.names[i]);
      assert PairKeys(pairs)[k] == declared[k].key;
    }
    if RSymbol(out.names[i]) in PairKeys(pairs) {
      var k :| 0 <= k < |pairs| && PairKeys(pairs)[k] == RSymbol(out.names[i]);
      assert k < |declared| && declared[k] == pairs[k];
      var j := PresentAt(out.names, out.fields, |out.names|, k);
      assert out.names[i] == out.names[j];
    }
  }

  /** The value of an undeclared key becomes what it was read from exactly if
      that is plain. */
  lemma {:induction false} ExtraValue(pairs: seq<RPair>, path: Path, v: Value, k: nat)
    requires Convert(RHash(pairs), path) == Success(v) && KeyTextsDistinct(RHash(pairs))
    requires k < |pairs| && v.Dict? && k < |v.entries| && ToRuby(v.entries[k].value).Success?
    ensures ToRuby(v.entries[k].value) == Success(pairs[k].value) <==> Plain(pairs[k].value)
  {
    ConvertedPairs(pairs, path);
    PlainOnDistinct(pairs[k].value, path + [Key(v.entries[k].key)]);
  }

  /** What was written starts with the declared names it has, in schema order. */
  lemma {:induction false} WrittenPrefix(out: Value, declared: seq<RPair>, extras: seq<RPair>)
    requires WrittenAs(out, declared, extras) && Distinct(out.names)
    ensures var given := GivenKeys(out.names, declared + extras, |out.names|);
            |given| == |declared| && given <= PairKeys(declared + extras)
  {
    var names, pairs := out.names, declared + extras;
    forall i | 0 <= i < |names| ensures out.fields[i].Some? <==> RSymbol(names[i]) in PairKeys(pairs) {
      WrittenSymbols(out, declared, extras, i);
    }
    PresentIsGiven(names, out.fields, pairs, |names|);
    var given := GivenKeys(names, pairs, |names|);
    forall k | 0 <= k < |given| ensures given[k] == PairKeys(pairs)[k] {
      assert pairs[k] == declared[k];
    }
  }

  lemma {:induction false} WrittenFields(env: Env, ty: TypeExpr, root: bool, pairs: seq<RPair>, path: Path, v: Value,
                                         out: Value, declared: seq<RPair>, extras: seq<RPair>, i: nat)
    requires Read(env, ty, root, pairs, path, v, out) && i < |ty.fields|
    requires pairs == declared + extras && WrittenAs(out, declared, extras)
    ensures FieldVerbatim(env.extraBehavior, ty.fields[i], pairs)
    decreases ty, 2
  {
    var name := ty.fields[i].name;
    assert out.names[i] == name;
    if HashGet(pairs, RSymbol(name)).Some? {
      var k := HashGetIndex(pairs, RSymbol(name));
      WrittenField(out, declared, extras, i, k);
      FieldValue(env, ty, root, pairs, path, v, out, i, k);
    }
  }

  lemma {:induction false} WrittenIsVerbatim(env: Env, ty: TypeExpr, root: bool, pairs: seq<RPair>, path: Path,
                                             v: Value, out: Value)
    requires Read(env, ty, root, pairs, path, v, out)
    requires ToRuby(out).value == RHash(pairs)
    ensures Verbatim(env.extraBehavior, ty, root, RHash(pairs))
    decreases ty, 3
  {
    var declared, extras := StructWritten(env, ty, root, pairs, path, v, out);
    DeclaredOrNot(env, ty, root, pairs, path, v, out);
    WrittenPrefix(out, declared, extras);
    forall i | 0 <= i < |ty.fields| ensures FieldVerbatim(env.extraBehavior, ty.fields[i], pairs) {
      WrittenFields(env, ty, root, pairs, path, v, out, declared, extras, i);
    }
    var names, extra := FieldNames(ty.fields), if root then env.extraBehavior else ty.extra;
    WrittenExtras(names, extra, pairs, path, v.entries, out.extras, declared, extras);
    assert |GivenKeys(names, pairs, |names|)| == |declared|;
  }

  lemma {:induction false} WrittenExtras(names: seq<string>, extra: ExtraBehavior, pairs: seq<RPair>, path: Path,
                                         entries: seq<Entry>, kept: seq<Entry>, declared: seq<RPair>, extras: seq<RPair>)
    requires Convert(RHash(pairs), path) == Success(Value.Dict(entries)) && KeyTextsDistinct(RHash(pairs))
    requires YieldsExtras(extra, names, entries, kept) && pairs == declared + extras && |extras| == |kept|
    requires forall k | 0 <= k < |extras| :: HoldsEntry(extras[k], RString(kept[k].key), kept[k].value)
    ensures forall k | |declared| <= k < |pairs| :: ExtraVerbatim(names, extra, pairs[k])
  {
    forall k | |declared| <= k < |pairs| ensures ExtraVerbatim(names, extra, pairs[k]) {
      assert pairs[k] == extras[k - |declared|];
      WrittenExtra(names, extra, pairs, path, entries, kept, k - |declared|, k);
    }
  }

  lemma {:induction false} WrittenField(out: Value, declared: seq<RPair>, extras: seq<RPair>, i: nat, k: nat)
    requires WrittenAs(out, declared, extras) && Distinct(out.names) && i < |out.names|
    requires k < |declared + extras| && (declared + extras)[k].key == RSymbol(out.names[i])
    ensures out.fields[i].Some? && ToRuby(out.fields[i].value) == Success((declared + extras)[k].value)
  {
    assert k < |declared| && declared[k] == (declared + extras)[k];
    var j := PresentAt(out.names, out.fields, |out.names|, k);
    assert out.names[i] == out.names[j];
  }

  lemma {:induction false} WrittenExtra(names: seq<string>, extra: ExtraBehavior, pairs: seq<RPair>, path: Path,
                                        entries: seq<Entry>, kept: seq<Entry>, m: nat, k: nat)
    requires Convert(RHash(pairs), path) == Success(Value.Dict(entries)) && KeyTextsDistinct(RHash(pairs))
    requires YieldsExtras(extra, names, entries, kept) && m < |kept| && k < |pairs|
    requires HoldsEntry(pairs[k], RString(kept[m].key), kept[m].value)
    ensures ExtraVerbatim(names, extra, pairs[k])
  {
    ConvertedPairs(pairs, path);
    ConvertedShape(RHash(pairs), path);
    ExtraOrigin(names, entries, m, k);
    ExtraValue(pairs, path, Value.Dict(entries), k);
  }

  lemma {:induction false} ExtraOrigin(names: seq<string>, entries: seq<Entry>, m: nat, k: nat)
    requires Distinct(Keys(entries)) && k < |entries| && m < |Undeclared(names, entries)|
    requires Undeclared(names, entries)[m].key == entries[k].key
    ensures Undeclared(names, entries)[m] == entries[k] && entries[k].key !in names
  {
    UndeclaredIn(names, entries);
    var j :| 0 <= j < |entries| && entries[j] == Undeclared(names, entries)[m];
    assert Keys(entries)[j] == Keys(entries)[k];
  }

  /** Of a verbatim hash, exactly the symbols among the declared names are read. */
  lemma {:induction false} VerbatimPresent(env: Env, ty: TypeExpr, root: bool, pairs: seq<RPair>, path: Path,
                                           v: Value, out: Value)
    requires Read(env, ty, root, pairs, path, v, out)
    requires Verbatim(env.extraBehavior, ty, root, RHash(pairs))
    ensures out.names == FieldNames(ty.fields) && |out.fields| == |out.names| && PairKeysDistinct(pairs)
    ensures var given, present := GivenKeys(out.names, pairs, |out.names|), Present(out.names, out.fields, |out.names|);
            && |given| == |present| && given <= PairKeys(pairs)
            && forall k | 0 <= k < |given| :: given[k] == RSymbol(present[k].key)
  {
    DeclaredOrNot(env, ty, root, pairs, path, v, out);
    forall i | 0 <= i < |out.names| ensures out.fields[i].Some? <==> RSymbol(out.names[i]) in PairKeys(pairs) {
      NoStringDeclared(env.extraBehavior, ty, root, pairs, out.names[i]);
    }
    PresentIsGiven(out.names, out.fields, pairs, |out.names|);
  }

  lemma {:induction false} VerbatimField(env: Env, ty: TypeExpr, root: bool, pairs: seq<RPair>, path: Path, v: Value,
                                         out: Value, i: nat, k: nat)
    requires Read(env, ty, root, pairs, path, v, out) && i < |ty.fields| && k < |pairs|
    requires PairKeysDistinct(pairs) && pairs[k].key == RSymbol(ty.fields[i].name)
    requires FieldVerbatim(env.extraBehavior, ty.fields[i], pairs)
    ensures out.fields[i].Some? && ToRuby(out.fields[i].value) == Success(pairs[k].value)
    decreases ty, 2
  {
    FieldValue(env, ty, root, pairs, path, v, out, i, k);
    HashGetAt(pairs, k);
  }

  lemma {:induction false} VerbatimIsWritten(env: Env, ty: TypeExpr, root: bool, pairs: seq<RPair>, path: Path,
                                             v: Value, out: Value)
    requires Read(env, ty, root, pairs, path, v, out)
    requires Verbatim(env.extraBehavior, ty, root, RHash(pairs))
    ensures ToRuby(out).value == RHash(pairs)
    decreases ty, 3
  {
    var declared, extras := StructWritten(env, ty, root, pairs, path, v, out);
    VerbatimPresent(env, ty, root, pairs, path, v, out);
    var names, n := out.names, |declared|;
    assert n == |GivenKeys(names, pairs, |names|)| <= |PairKeys(pairs)|;
    forall k | 0 <= k < n ensures declared[k] == pairs[k] {
      var i := PresentAt(names, out.fields, |names|, k);
      assert PairKeys(pairs)[k] == RSymbol(names[i]);
      assert FieldVerbatim(env.extraBehavior, ty.fields[i], pairs);
      VerbatimField(env, ty, root, pairs, path, v, out, i, k);
    }
    VerbatimExtras(env.extraBehavior, ty, root, pairs, path, v.entries, out.extras, extras);
    assert pairs == pairs[..n] + pairs[n..];
    assert declared == pairs[..n];
  }

  lemma {:induction false} GivenAreSymbols(names: seq<string>, pairs: seq<RPair>, n: nat)
    requires n <= |names|
    ensures forall k | 0 <= k < |GivenKeys(names, pairs, n)| ::
              GivenKeys(names, pairs, n)[k].RSymbol? && GivenKeys(names, pairs, n)[k].name in names
  {
    if n > 0 {
      GivenAreSymbols(names, pairs, n - 1);
    }
  }

  lemma {:induction false} NoStringDeclared(option: ExtraBehavior, ty: TypeExpr, root: bool, pairs: seq<RPair>,
                                            name: string)
    requires ty.Struct? && Verbatim(option, ty, root, RHash(pairs)) && name in FieldNames(ty.fields)
    ensures RString(name) !in PairKeys(pairs)
  {
    var names := FieldNames(ty.fields);
    var given := GivenKeys(names, pairs, |names|);
    GivenAreSymbols(names, pairs, |names|);
    forall k | 0 <= k < |pairs| ensures PairKeys(pairs)[k] != RString(name) {
      if k < |given| {
        assert PairKeys(pairs)[k] == given[k];
      } else {
        assert ExtraVerbatim(names, if root then option else ty.extra, pairs[k]);
      }
    }
  }

  /** What follows the declared names is what the schema calls extras. */
  lemma {:induction false} ExtrasSplit(option: ExtraBehavior, ty: TypeExpr, root: bool, pairs: seq<RPair>,
                                       entries: seq<Entry>)
    requires ty.Struct? && Verbatim(option, ty, root, RHash(pairs)) && |entries| == |pairs|
    requires forall i | 0 <= i < |pairs| :: KeyText(pairs[i].key) == Some(entries[i].key)
    ensures var m := |GivenKeys(FieldNames(ty.fields), pairs, |ty.fields|)|;
            && m <= |pairs| && Undeclared(FieldNames(ty.fields), entries) == entries[m..]
            && (m < |pairs| ==> (if root then option else ty.extra).Allow?)
            && forall k | m <= k < |pairs| :: pairs[k].key == RString(entries[k].key) && Plain(pairs[k].value)
  {
    var names := FieldNames(ty.fields);
    var given := GivenKeys(names, pairs, |names|);
    assert |given| <= |PairKeys(pairs)|;
    GivenAreSymbols(names, pairs, |names|);
    forall i | 0 <= i < |given| ensures entries[i].key in names {
      assert given[i] == PairKeys(pairs)[i];
    }
    forall i | |given| <= i < |pairs|
      ensures entries[i].key !in names && pairs[i].key == RString(entries[i].key) && Plain(pairs[i].value)
      ensures (if root then option else ty.extra).Allow?
    {
      assert ExtraVerbatim(names, if root then option else ty.extra, pairs[i]);
    }
    UndeclaredTail(names, entries, |given|, |entries|);
    assert entries[..|entries|] == entries;
  }

  lemma {:induction false} VerbatimExtras(option: ExtraBehavior, ty: TypeExpr, root: bool, pairs: seq<RPair>,
                                          path: Path, entries: seq<Entry>, kept: seq<Entry>, extras: seq<RPair>)
    requires ty.Struct? && Verbatim(option, ty, root, RHash(pairs)) && KeyTextsDistinct(RHash(pairs))
    requires Convert(RHash(pairs), path) == Success(Value.Dict(entries))
    requires YieldsExtras(if root then option else ty.extra, FieldNames(ty.fields), entries, kept)
    requires |extras| == |kept|
    requires forall k | 0 <= k < |extras| :: HoldsEntry(extras[k], RString(kept[k].key), kept[k].value)
    ensures var m := |GivenKeys(FieldNames(ty.fields), pairs, |ty.fields|)|;
            m <= |pairs| && extras == pairs[m..]
  {
    ConvertedPairs(pairs, path);
    ExtrasSplit(option, ty, root, pairs, entries);
    var m := |GivenKeys(FieldNames(ty.fields), pairs, |ty.fields|)|;
    assert kept == entries[m..];
    TailWritten(pairs, path, entries, m, extras);
  }

  /** Strings with plain values are written as they were. */
  lemma {:induction false} TailWritten(pairs: seq<RPair>, path: Path, entries: seq<Entry>, m: nat, extras: seq<RPair>)
    requires Convert(RHash(pairs), path) == Success(Value.Dict(entries)) && KeyTextsDistinct(RHash(pairs))
    requires |entries| == |pairs| && m <= |pairs| && |extras| == |pairs| - m
    requires forall k | m <= k < |pairs| :: pairs[k].key == RString(entries[k].key) && Plain(pairs[k].value)
    requires forall k | 0 <= k < |extras| ::
               HoldsEntry(extras[k], RString(entries[m..][k].key), entries[m..][k].value)
    ensures extras == pairs[m..]
  {
    forall k | 0 <= k < |extras| ensures extras[k] == pairs[m + k] {
      assert HoldsEntry(extras[k], RString(entries[m..][k].key), entries[m..][k].value);
      ExtraValue(pairs, path, Value.Dict(entries), m + k);
    }
  }

  lemma {:induction false} DictVerbatim(env: Env, ty: TypeExpr, root: bool, pairs: seq<RPair>, path: Path,
                                        v: Value, out: Value)
    requires ty.Dict? && NamesDistinct(ty) && KeyTextsDistinct(RHash(pairs))
    requires Convert(RHash(pairs), path) == Success(v) && Yields(env, ty, root, v, out) && ToRuby(out).Success?
    ensures ToRuby(out).value == RHash(pairs) <==> Verbatim(env.extraBehavior, ty, root, RHash(pairs))
    decreases ty, 1
  {
    ConvertedPairs(pairs, path);
    DictBecomesSame(pairs, path, v.entries, out.entries);
    forall i | 0 <= i < |pairs|
      ensures ToRuby(out.entries[i].value) == Success(pairs[i].value)
         <==> Verbatim(env.extraBehavior, ty.value, false, pairs[i].value)
    {
      VerbatimOnDistinct(env, ty.value, false, pairs[i].value, path + [Key(v.entries[i].key)], v.entries[i].value,
                  out.entries[i].value);
    }
  }

  lemma {:induction false} ListVerbatim(env: Env, ty: TypeExpr, root: bool, items: seq<RValue>, path: Path,
                                        v: Value, out: Value)
    requires ty.List? && NamesDistinct(ty) && KeyTextsDistinct(RArray(items))
    requires Convert(RArray(items), path) == Success(v) && Yields(env, ty, root, v, out) && ToRuby(out).Success?
    ensures ToRuby(out).value == RArray(items) <==> Verbatim(env.extraBehavior, ty, root, RArray(items))
    decreases ty, 1
  {
    ConvertedItems(items, path);
    ItemsBecome(out.items);
    var xs := ToRuby(out).value.items;
    forall i | 0 <= i < |items|
      ensures xs[i] == items[i] <==> Verbatim(env.extraBehavior, ty.of, false, items[i])
    {
      VerbatimOnDistinct(env, ty.of, false, items[i], path + [Index(i)], v.items[i], out.items[i]);
    }
    assert xs == items <==> forall i | 0 <= i < |items| :: xs[i] == items[i];
  }

  lemma {:induction false} PrimitiveVerbatim(env: Env, primitive: PrimitiveType, root: bool, x: RValue, path: Path,
                                             v: Value, out: Value)
    requires KeyTextsDistinct(x) && Convert(x, path) == Success(v)
    requires YieldsPrimitive(env, primitive, v, out) && ToRuby(out).Success?
    ensures ToRuby(out).value == x <==> Verbatim(env.extraBehavior, TypeExpr.Primitive(primitive), root, x)
  {
    if primitive.Any? {
      PlainOnDistinct(x, path);
    }
  }

  /** Where keys are not confused, an input becomes its own output exactly if it
      is verbatim. */
  lemma {:induction false} VerbatimOnDistinct(env: Env, ty: TypeExpr, root: bool, x: RValue, path: Path,
                                              v: Value, out: Value)
    requires NamesDistinct(ty) && KeyTextsDistinct(x) && Convert(x, path) == Success(v)
    requires Yields(env, ty, root, v, out) && ToRuby(out).Success?
    ensures ToRuby(out).value == x <==> Verbatim(env.extraBehavior, ty, root, x)
    decreases ty, 4
  {
    match ty
    case Primitive(primitive) => PrimitiveVerbatim(env, primitive, root, x, path, v, out);
    case Enum(_) =>
    case Optional(of) =>
      if !v.Null? {
        VerbatimOnDistinct(env, of, root, x, path, v, out);
      }
    case List(_, _) =>
      if x.RArray? {
        ListVerbatim(env, ty, root, x.items, path, v, out);
      }
    case Dict(_, _) =>
      if x.RHash? {
        DictVerbatim(env, ty, root, x.pairs, path, v, out);
      }
    case Struct(_, _) =>
      if x.RHash? {
        if ToRuby(out).value == x {
          WrittenIsVerbatim(env, ty, root, x.pairs, path, v, out);
        }
        if Verbatim(env.extraBehavior, ty, root, x) {
          VerbatimIsWritten(env, ty, root, x.pairs, path, v, out);
        }
      }
  }

  /** Structs have a slot for every name, and, at no depth, an extra under a field's name. */
  predicate Separate(out: Value) {
    match out
    case List(items) => forall i | 0 <= i < |items| :: Separate(items[i])
    case Dict(entries) => forall i | 0 <= i < |entries| :: Separate(entries[i].value)
    case Struct(names, fields, extras) =>
      && |names| == |fields|
      && (forall i | 0 <= i < |fields| :: fields[i].Some? ==> Separate(fields[i].value))
      && forall i | 0 <= i < |extras| :: extras[i].key !in names && Separate(extras[i].value)
    case _ => true
  }

  lemma {:induction false} StructFreeSeparate(v: Value)
    requires StructFree(v)
    ensures Separate(v)
  {
    match v
    case List(items) =>
      forall i | 0 <= i < |items| ensures Separate(items[i]) {
        StructFreeSeparate(items[i]);
      }
    case Dict(entries) =>
      forall i | 0 <= i < |entries| ensures Separate(entries[i].value) {
        StructFreeSeparate(entries[i].value);
      }
    case _ =>
  }

  lemma {:induction false} ConformsSeparate(option: ExtraBehavior, ty: TypeExpr, root: bool, out: Value)
    requires Conforms(option, ty, root, out)
    ensures Separate(out)
    decreases ty
  {
    match ty
    case Primitive(primitive) =>
      if primitive.Any? {
        StructFreeSeparate(out);
      }
    case Enum(_) =>
    case Optional(of) =>
      if !out.Null? {
        ConformsSeparate(option, of, root, out);
      }
    case List(of, _) =>
      forall i | 0 <= i < |out.items| ensures Separate(out.items[i]) {
        ConformsSeparate(option, of, false, out.items[i]);
      }
    case Dict(of, _) =>
      forall i | 0 <= i < |out.entries| ensures Separate(out.entries[i].value) {
        ConformsSeparate(option, of, false, out.entries[i].value);
      }
    case Struct(fields, _) =>
      forall i | 0 <= i < |fields| && out.fields[i].Some? ensures Separate(out.fields[i].value) {
        ConformsSeparate(option, fields[i].ty, false, out.fields[i].value);
      }
      forall i | 0 <= i < |out.extras| ensures Separate(out.extras[i].value) {
        StructFreeSeparate(out.extras[i].value);
      }
  }

  /** A hash has only pairs that were stored. */
  lemma {:induction false} HashPutFrom(pairs: seq<RPair>, put: RPair)
    ensures forall k | 0 <= k < |HashPut(pairs, put)| :: HashPut(pairs, put)[k] == put || HashPut(pairs, put)[k] in pairs
  {
    if pairs != [] && pairs[0].key != put.key {
      HashPutFrom(pairs[1..], put);
    }
  }

  lemma {:induction false} PutAllFrom(puts: seq<RPair>, n: nat)
    requires n <= |puts|
    ensures forall k | 0 <= k < |PutAll([], puts, n)| :: PutAll([], puts, n)[k] in puts
  {
    if n > 0 {
      PutAllFrom(puts, n - 1);
      HashPutFrom(PutAll([], puts, n - 1), puts[n - 1]);
    }
  }

  lemma {:induction false} HashTexts(puts: seq<RPair>)
    requires forall i | 0 <= i < |puts| :: KeyTextsDistinct(puts[i].value)
    requires forall i, j | 0 <= i < |puts| && 0 <= j < |puts| && puts[i].key != puts[j].key ::
               KeyText(puts[i].key) != KeyText(puts[j].key)
    ensures KeyTextsDistinct(HashOf(puts))
  {
    HashHoldsLast(puts, |puts|);
    PutAllFrom(puts, |puts|);
    var pairs := PutAll([], puts, |puts|);
    forall i | 0 <= i < |pairs| ensures KeyTextsDistinct(pairs[i].value) {
      assert pairs[i] in puts;
    }
    forall i, j | 0 <= i < j < |pairs| ensures KeyText(pairs[i].key) != KeyText(pairs[j].key) {
      assert pairs[i] in puts && pairs[j] in puts;
    }
  }

  lemma {:induction false} FieldStores(names: seq<string>, fields: seq<Option<Value>>, slots: seq<Option<RPair>>, n: nat)
    requires |names| == |fields| == |slots| && n <= |slots|
    requires forall i | 0 <= i < |slots| :: FieldPut(names[i], fields[i]) == Success(slots[i])
    requires forall i | 0 <= i < |slots| && slots[i].Some? :: KeyTextsDistinct(slots[i].value.value)
    ensures forall k | 0 <= k < |Somes(slots, n)| ::
              && Somes(slots, n)[k].key.RSymbol? && Somes(slots, n)[k].key.name in names
              && KeyTextsDistinct(Somes(slots, n)[k].value)
  {
    if n > 0 {
      FieldStores(names, fields, slots, n - 1);
      assert FieldPut(names[n - 1], fields[n - 1]) == Success(slots[n - 1]);
    }
  }

  lemma {:induction false} StructTexts(out: Value)
    requires out.Struct? && Separate(out) && ToRuby(out).Success?
    ensures KeyTextsDistinct(ToRuby(out).value)
    decreases out, 0
  {
    var fs, es := FieldPuts(out.names, out.fields), ExtraPuts(out.extras);
    GatherSuccess(fs, |fs|);
    GatherSuccess(es, |es|);
    var slots, extras := Gather(fs, |fs|).value, Gather(es, |es|).value;
    forall i | 0 <= i < |fs|
      ensures FieldPut(out.names[i], out.fields[i]) == Success(slots[i])
      ensures slots[i].Some? ==> KeyTextsDistinct(slots[i].value.value)
    {
      assert fs[i] == FieldPut(out.names[i], out.fields[i]);
      if out.fields[i].Some? {
        WrittenTexts(out.fields[i].value);
      }
    }
    forall i | 0 <= i < |es|
      ensures extras[i].key == RString(out.extras[i].key) && KeyTextsDistinct(extras[i].value)
    {
      assert es[i] == ExtraPut(out.extras[i]);
      WrittenTexts(out.extras[i].value);
    }
    FieldStores(out.names, out.fields, slots, |slots|);
    HashTexts(Somes(slots, |slots|) + extras);
  }

  /** What materialisation writes never confuses a symbol with a string. */
  lemma {:induction false} WrittenTexts(out: Value)
    requires Separate(out) && ToRuby(out).Success?
    ensures KeyTextsDistinct(ToRuby(out).value)
    decreases out, 1
  {
    match out
    case List(items) =>
      ItemsBecome(items);
      forall i | 0 <= i < |items| ensures KeyTextsDistinct(ToRuby(out).value.items[i]) {
        WrittenTexts(items[i]);
      }
    case Dict(entries) =>
      var puts := Gather(DictPuts(entries), |entries|).value;
      GatherSuccess(DictPuts(entries), |entries|);
      forall i | 0 <= i < |puts| ensures puts[i].key.RSymbol? && KeyTextsDistinct(puts[i].value) {
        assert DictPuts(entries)[i] == DictPut(entries[i]);
        WrittenTexts(entries[i].value);
      }
      HashTexts(puts);
    case Struct(_, _, _) => StructTexts(out);
    case _ =>
  }

  lemma {:induction false} PlainTexts(x: RValue)
    requires Plain(x)
    ensures KeyTextsDistinct(x)
  {
    match x
    case RArray(items) =>
      forall i | 0 <= i < |items| ensures KeyTextsDistinct(items[i]) {
        PlainTexts(items[i]);
      }
    case RHash(pairs) =>
      forall i | 0 <= i < |pairs| ensures KeyTextsDistinct(pairs[i].value) {
        PlainTexts(pairs[i].value);
      }
      forall i, j | 0 <= i < j < |pairs| ensures KeyText(pairs[i].key) != KeyText(pairs[j].key) {
        assert pairs[i].key != pairs[j].key;
      }
    case _ =>
  }

  /** What the key of a verbatim struct's pair is, by its place. */
  lemma {:induction false} KeyByPlace(option: ExtraBehavior, ty: TypeExpr, root: bool, pairs: seq<RPair>, k: nat)
    requires ty.Struct? && Verbatim(option, ty, root, RHash(pairs)) && k < |pairs|
    ensures || (pairs[k].key.RSymbol? && pairs[k].key.name in FieldNames(ty.fields))
            || (pairs[k].key.RString? && pairs[k].key.s !in FieldNames(ty.fields) && Plain(pairs[k].value))
  {
    var names := FieldNames(ty.fields);
    var given := GivenKeys(names, pairs, |names|);
    GivenAreSymbols(names, pairs, |names|);
    if k < |given| {
      assert given[k] == PairKeys(pairs)[k];
    } else {
      assert ExtraVerbatim(names, if root then option else ty.extra, pairs[k]);
    }
  }

  lemma {:induction false} StructVerbatimTexts(option: ExtraBehavior, ty: TypeExpr, root: bool, pairs: seq<RPair>)
    requires ty.Struct? && Verbatim(option, ty, root, RHash(pairs))
    ensures KeyTextsDistinct(RHash(pairs))
    decreases ty, 0
  {
    var names := FieldNames(ty.fields);
    forall i, j | 0 <= i < j < |pairs| ensures KeyText(pairs[i].key) != KeyText(pairs[j].key) {
      KeyByPlace(option, ty, root, pairs, i);
      KeyByPlace(option, ty, root, pairs, j);
      assert pairs[i].key != pairs[j].key;
    }
    forall k | 0 <= k < |pairs| ensures KeyTextsDistinct(pairs[k].value) {
      KeyByPlace(option, ty, root, pairs, k);
      if pairs[k].key.RSymbol? {
        var i :| 0 <= i < |names| && names[i] == pairs[k].key.name;
        HashGetAt(pairs, k);
        assert FieldVerbatim(option, ty.fields[i], pairs);
        VerbatimTexts(option, ty.fields[i].ty, false, pairs[k].value);
      } else {
        PlainTexts(pairs[k].value);
      }
    }
  }

  lemma {:induction false} VerbatimTexts(option: ExtraBehavior, ty: TypeExpr, root: bool, x: RValue)
    requires Verbatim(option, ty, root, x)
    ensures KeyTextsDistinct(x)
    decreases ty, 1
  {
    match ty
    case Primitive(primitive) =>
      if primitive.Any? {
        PlainTexts(x);
      }
    case Enum(_) =>
    case Optional(of) =>
      if !x.RNil? {
        VerbatimTexts(option, of, root, x);
      }
    case List(of, _) =>
      forall i | 0 <= i < |x.items| ensures KeyTextsDistinct(x.items[i]) {
        VerbatimTexts(option, of, false, x.items[i]);
      }
    case Dict(of, _) =>
      forall i | 0 <= i < |x.pairs| ensures KeyTextsDistinct(x.pairs[i].value) {
        VerbatimTexts(option, of, false, x.pairs[i].value);
      }
      forall i, j | 0 <= i < j < |x.pairs| ensures KeyText(x.pairs[i].key) != KeyText(x.pairs[j].key) {
        assert x.pairs[i].key != x.pairs[j].key;
      }
    case Struct(_, _) => StructVerbatimTexts(option, ty, root, x.pairs);
  }

  /** An unchecked value comes back unchanged exactly if it is plain. */
  lemma {:induction false} PlainIff(x: RValue, path: Path)
    requires Convert(x, path).Success? && ToRuby(Convert(x, path).value).Success?
    ensures ToRuby(Convert(x, path).value).value == x <==> Plain(x)
  {
    ConvertedShape(x, path);
    StructFreeSeparate(Convert(x, path).value);
    WrittenTexts(Convert(x, path).value);
    if KeyTextsDistinct(x) {
      PlainOnDistinct(x, path);
    } else if Plain(x) {
      PlainTexts(x);
      assert false;
    }
  }

  /** An input becomes its own output exactly if it is verbatim. */
  lemma {:induction false} VerbatimIff(env: Env, ty: TypeExpr, root: bool, x: RValue, path: Path, v: Value, out: Value)
    requires NamesDistinct(ty) && Convert(x, path) == Success(v)
    requires Yields(env, ty, root, v, out) && ToRuby(out).Success?
    ensures ToRuby(out).value == x <==> Verbatim(env.extraBehavior, ty, root, x)
  {
    var place := if root then [] else [Key("")];
    ConvertedShape(x, path);
    ValidationMeans(env, ty, place, v, out);
    SuccessConforms(env, ty, place, v);
    ConformsSeparate(env.extraBehavior, ty, root, out);
    WrittenTexts(out);
    if KeyTextsDistinct(x) {
      VerbatimOnDistinct(env, ty, root, x, path, v, out);
    } else if Verbatim(env.extraBehavior, ty, root, x) {
      VerbatimTexts(env.extraBehavior, ty, root, x);
      assert false;
    }
  }

  lemma {:induction false} StructPayload(env: Env, document: TypeExpr, input: RValue, instance: Instance)
    requires document.Struct? && NamesDistinct(document)
    requires forall i | 0 <= i < |document.fields| :: NulFree(document.fields[i].name)
    requires BuildSpec(env, document, PlanOf(document), input, true) == Success(instance)
    ensures HashOf(instance.stored) == input <==> Verbatim(env.extraBehavior, document, true, input)
  {
    var v, out := Convert(input, []).value, Output(env, document, input);
    StructBuildStoresOutput(env, document, input, instance);
    RunMeans(env, document, v, out);
    VerbatimIff(env, document, true, input, [], v, out);
  }

  lemma {:induction false} StoredExtras(root: Value, instance: Instance)
    requires root.Struct? && InstanceOf([], root, true) == Success(instance)
    ensures Gather(ExtraPuts(root.extras), |root.extras|) == Success(instance.stored)
  {
    assert ExtraSteps(root.extras, true) == ExtraPuts(root.extras);
    var none: seq<Option<RPair>> := [];
    assert Gather(PlanPuts([], root.names, root.fields), |none|) == Success(none);
    assert Somes(none, |none|) == [];
    match Gather(ExtraSteps(root.extras, true), |root.extras|)
    case Success(steps) => assert Somes(none, |none|) + steps == steps;
    case Failure(_) =>
  }

  lemma {:induction false} NoFieldPuts()
    ensures |FieldPuts([], [])| == 0 && Gather(FieldPuts([], []), 0) == Success([])
  {
  }

  lemma {:induction false} OnlyExtraPuts(extras: Result<seq<RPair>, MaterializeError>)
    ensures StructPuts(Success([]), extras) == extras
  {
    if extras.Success? {
      assert Somes<RPair>([], 0) + extras.value == extras.value;
    }
  }

  /** A struct without fields is written as its extras. */
  lemma {:induction false} ExtrasAlone(extras: seq<Entry>)
    ensures ToRuby(Value.Struct([], [], extras))
         == match Gather(ExtraPuts(extras), |extras|)
            case Success(puts) => Success(HashOf(puts))
            case Failure(f) => Failure(f)
  {
    NoFieldPuts();
    OnlyExtraPuts(Gather(ExtraPuts(extras), |extras|));
  }

  lemma {:induction false} ExtrasWritten(extras: seq<Entry>, stored: seq<RPair>)
    requires Gather(ExtraPuts(extras), |extras|) == Success(stored)
    ensures |stored| == |extras|
    ensures forall k | 0 <= k < |extras| :: HoldsEntry(stored[k], RString(extras[k].key), extras[k].value)
  {
    var puts := ExtraPuts(extras);
    GatherSuccess(puts, |extras|);
    forall k | 0 <= k < |extras| ensures HoldsEntry(stored[k], RString(extras[k].key), extras[k].value) {
      assert puts[k] == ExtraPut(extras[k]);
    }
  }

  /** Without a plan, the stores are the extras, under strings. */
  lemma {:induction false} UnplannedStores(root: Value, instance: Instance)
    requires root.Struct? && InstanceOf([], root, true) == Success(instance)
    ensures |instance.stored| == |root.extras|
    ensures forall k | 0 <= k < |root.extras| ::
              HoldsEntry(instance.stored[k], RString(root.extras[k].key), root.extras[k].value)
    ensures ToRuby(Value.Struct([], [], root.extras)) == Success(HashOf(instance.stored))
  {
    StoredExtras(root, instance);
    ExtrasAlone(root.extras);
    ExtrasWritten(root.extras, instance.stored);
  }

  /** A build for a root that is no struct stores the hash of the extras alone. */
  lemma {:induction false} OtherBuildStoresExtras(env: Env, document: TypeExpr, input: RValue, instance: Instance)
    requires !document.Struct?
    requires BuildSpec(env, document, PlanOf(document), input, true) == Success(instance)
    ensures var v, out := Convert(input, []).value, Output(env, document, input);
            && v.Dict? && out.Struct?
            && out.extras == (if env.extraBehavior.Allow? then Undeclared(out.names, v.entries) else [])
            && ToRuby(Value.Struct([], [], out.extras)) == Success(HashOf(instance.stored))
  {
    OutputOfBuild(env, document, input, true, instance);
    UnplannedStores(Output(env, document, input), instance);
  }

  lemma {:induction false} CoreVerbatim(option: ExtraBehavior, ty: TypeExpr, x: RValue)
    requires x.RHash?
    ensures Verbatim(option, ty, true, x) <==> Verbatim(option, Core(ty), true, x)
  {
    if ty.Optional? {
      CoreVerbatim(option, ty.of, x);
    }
  }

  lemma {:induction false} CoreNamesDistinct(ty: TypeExpr)
    requires NamesDistinct(ty)
    ensures NamesDistinct(Core(ty))
  {
    if ty.Optional? {
      CoreNamesDistinct(ty.of);
    }
  }

  /** A name that is given stands in the hash, as a symbol or as a string. */
  lemma {:induction false} GivenInKeys(pairs: seq<RPair>, path: Path, v: Value, name: string)
    requires Convert(RHash(pairs), path) == Success(v)
    ensures Given(v, name) <==> RSymbol(name) in PairKeys(pairs) || RString(name) in PairKeys(pairs)
  {
    ConvertedPairs(pairs, path);
    DictFindAbsent(v.entries, name);
    TextInKeys(pairs, v.entries, name);
  }

  predicate StringKeys(pairs: seq<RPair>) {
    forall k | 0 <= k < |pairs| :: pairs[k].key.RString?
  }

  /** The hash of the extras has no declared name. */
  lemma {:induction false} StoredUndeclared(names: seq<string>, extras: seq<Entry>, stored: seq<RPair>)
    requires |stored| == |extras| && forall k | 0 <= k < |extras| :: extras[k].key !in names
    requires forall k | 0 <= k < |extras| :: HoldsEntry(stored[k], RString(extras[k].key), extras[k].value)
    ensures StringKeys(HashOf(stored).pairs)
    ensures forall name | name in names ::
              RSymbol(name) !in PairKeys(HashOf(stored).pairs) && RString(name) !in PairKeys(HashOf(stored).pairs)
  {
    PutAllFrom(stored, |stored|);
    var pairs := HashOf(stored).pairs;
    forall k | 0 <= k < |pairs| ensures pairs[k].key.RString? && pairs[k].key.s !in names {
      var j :| 0 <= j < |stored| && stored[j] == pairs[k];
      assert HoldsEntry(stored[j], RString(extras[j].key), extras[j].value);
    }
  }

  lemma {:induction false} GivenAsString(pairs: seq<RPair>, name: string)
    requires StringKeys(pairs)
    requires RSymbol(name) in PairKeys(pairs) || RString(name) in PairKeys(pairs)
    ensures RString(name) in PairKeys(pairs)
  {
    forall k | 0 <= k < |pairs| ensures PairKeys(pairs)[k] != RSymbol(name) {
      assert pairs[k].key.RString?;
    }
  }

  /** If a declared name is given, its value is not among what is stored, and an
      input that gives it under a string is not verbatim. */
  lemma {:induction false} GivenIsNotStored(option: ExtraBehavior, core: TypeExpr, pairs: seq<RPair>, v: Value,
                                            out: Value, stored: seq<RPair>, name: string)
    requires core.Struct? && name in FieldNames(core.fields) && Given(v, name)
    requires Convert(RHash(pairs), []) == Success(v)
    requires out.Struct? && out.names == FieldNames(core.fields)
    requires out.extras == [] || out.extras == Undeclared(out.names, v.entries)
    requires |stored| == |out.extras|
    requires forall k | 0 <= k < |out.extras| ::
               HoldsEntry(stored[k], RString(out.extras[k].key), out.extras[k].value)
    ensures HashOf(stored) != RHash(pairs)
    ensures !(Verbatim(option, core, true, RHash(pairs)) && StringKeys(pairs))
  {
    GivenInKeys(pairs, [], v, name);
    UndeclaredIn(out.names, v.entries);
    StoredUndeclared(out.names, out.extras, stored);
    if Verbatim(option, core, true, RHash(pairs)) && StringKeys(pairs) {
      GivenAsString(pairs, name);
      NoStringDeclared(option, core, true, pairs, name);
    }
  }

  /** A struct with nothing present is written as its extras. */
  lemma {:induction false} NothingPresent(out: Value)
    requires out.Struct? && forall i | 0 <= i < |out.fields| :: out.fields[i].None?
    ensures ToRuby(out) == ToRuby(Value.Struct([], [], out.extras))
  {
    var fs := FieldPuts(out.names, out.fields);
    var nothing := seq(|fs|, i requires 0 <= i < |fs| => None);
    forall i | 0 <= i < |fs| ensures fs[i] == Success(nothing[i]) {
      assert fs[i] == FieldPut(out.names[i], out.fields[i]);
    }
    GatherAll(fs, nothing, |fs|);
    assert nothing[..|fs|] == nothing;
    NoSomes(nothing, |nothing|);
    assert FieldPuts([], []) == [];
  }

  lemma {:induction false} NoSomes<T>(options: seq<Option<T>>, n: nat)
    requires n <= |options| && forall i | 0 <= i < |options| :: options[i].None?
    ensures Somes(options, n) == []
  {
    if n > 0 {
      NoSomes(options, n - 1);
    }
  }

  /** With no declared name given, verbatim means strings for keys. */
  lemma {:induction false} VerbatimHasStrings(option: ExtraBehavior, core: TypeExpr, pairs: seq<RPair>, v: Value)
    requires core.Struct? && Convert(RHash(pairs), []) == Success(v)
    requires Verbatim(option, core, true, RHash(pairs))
    requires forall name | name in FieldNames(core.fields) :: !Given(v, name)
    ensures StringKeys(pairs)
  {
    forall k | 0 <= k < |pairs| ensures pairs[k].key.RString? {
      KeyByPlace(option, core, true, pairs, k);
      if pairs[k].key.RSymbol? {
        assert PairKeys(pairs)[k] == RSymbol(pairs[k].key.name);
        GivenInKeys(pairs, [], v, pairs[k].key.name);
      }
    }
  }

  lemma {:induction false} OtherPayload(env: Env, document: TypeExpr, input: RValue, instance: Instance)
    requires !document.Struct? && NamesDistinct(document)
    requires BuildSpec(env, document, PlanOf(document), input, true) == Success(instance)
    ensures input.RHash?
    ensures HashOf(instance.stored) == input
       <==> Verbatim(env.extraBehavior, document, true, input) && StringKeys(input.pairs)
  {
    var v, out, core := Convert(input, []).value, Output(env, document, input), Core(document);
    OutputOfBuild(env, document, input, true, instance);
    UnplannedStores(out, instance);
    CoreVerbatim(env.extraBehavior, document, input);
    CoreNamesDistinct(document);
    if i :| 0 <= i < |out.names| && Given(v, out.names[i]) {
      GivenIsNotStored(env.extraBehavior, core, input.pairs, v, out, instance.stored, out.names[i]);
    } else {
      NothingPresent(out);
      ConvertedShape(input, []);
      RunMeans(env, document, v, out);
      CoreYields(env, document, v, out);
      VerbatimIff(env, core, true, input, [], v, out);
      if Verbatim(env.extraBehavior, core, true, input) {
        VerbatimHasStrings(env.extraBehavior, core, input.pairs, v);
      }
    }
  }

  /** With attributes stored, they are the raw payload exactly if that was
      verbatim and, unless the root is itself a struct, had strings for keys. */
  lemma {:induction false} AttributesAreRawPayload(env: Env, document: TypeExpr, input: RValue, instance: Instance)
    requires NamesDistinct(document)
    requires forall i | 0 <= i < |PlanOf(document)| :: NulFree(PlanOf(document)[i])
    requires BuildSpec(env, document, PlanOf(document), input, true) == Success(instance)
    ensures HashOf(instance.stored) == input
       <==> && Verbatim(env.extraBehavior, document, true, input)
            && (document.Struct? || (input.RHash? && StringKeys(input.pairs)))
  {
    if document.Struct? {
      forall i | 0 <= i < |document.fields| ensures NulFree(document.fields[i].name) {
        assert PlanOf(document)[i] == document.fields[i].name;
      }
      StructPayload(env, document, input, instance);
    } else {
      OtherPayload(env, document, input, instance);
    }
  }

  /** A verbatim input that an optional root does not store. */
  lemma {:induction false} OptionalRootLosesPayload(env: Env)
    ensures var document := TypeExpr.Optional(OneField(FieldExpr("x", Required, TypeExpr.Primitive(Any))));
            var input := GivingOne("x", RInteger(1));
            var spec := BuildSpec(env, document, PlanOf(document), input, true);
            && Verbatim(env.extraBehavior, document, true, input)
            && spec.Success? && HashOf(spec.value.stored) == RHash([]) != input
  {
    var field := FieldExpr("x", Required, TypeExpr.Primitive(Any));
    var out := Value.Struct(["x"], [Some(Value.Int(1))], []);
    var document, input := TypeExpr.Optional(OneField(field)), GivingOne("x", RInteger(1));
    OneFieldOutput(env, field, RInteger(1), Value.Int(1), Value.Int(1));
    NothingPlanned(out, true);
    BuildOfRun(env, document, input, out, true, Instance(map[], []));
    assert HashOf([]) == RHash([]);
    OneFieldBuild(env, field, RInteger(1), Value.Int(1), Value.Int(1), true);
    var instance := Instance(map["@x" := RInteger(1)], input.pairs);
    assert "@" + "x" == "@x";
    StructPayload(env, OneField(field), input, instance);
  }

  /** They are not always: text read as an integer is stored as that integer. */
  lemma {:induction false} PayloadNotKept(env: Env)
    requires !env.strict && env.runtime.parseI64(env.runtime.trim("1")) == Some(1)
    ensures var ty := TypeExpr.Primitive(PrimitiveType.Int(IntConstraints(None, None)));
            var document := TypeExpr.Struct([FieldExpr("a", Required, ty)], Forbid);
            var input := RHash([RPair(RSymbol("a"), RString("1"))]);
            var spec := BuildSpec(env, document, PlanOf(document), input, true);
            && spec.Success?
            && HashOf(spec.value.stored) == RHash([RPair(RSymbol("a"), RInteger(1))]) != input
  {
    var field := FieldExpr("a", Required, TypeExpr.Primitive(PrimitiveType.Int(IntConstraints(None, None))));
    OneFieldBuild(env, field, RString("1"), Value.String("1"), Value.Int(1), true);
  }
}
