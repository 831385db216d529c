/** What input conversion promises: it succeeds exactly on supported input,
    and otherwise names the first fault in traversal order. */
module InputFaults {
  import opened Wrappers
  import opened Values
  import opened Paths
  import opened Ruby
  import opened RubyInput

  predicate FitsI64(n: int) {
    -9_223_372_036_854_775_808 <= n <= 9_223_372_036_854_775_807
  }

  predicate TextKey(key: RValue) {
    key.RString? || key.RSymbol?
  }

  /** Every nested object and hash key is of a supported kind. */
  predicate Supported(v: RValue) {
    match v
    case RInteger(n) => FitsI64(n)
    case RArray(items) => forall i | 0 <= i < |items| :: Supported(items[i])
    case RHash(pairs) => forall i | 0 <= i < |pairs| :: TextKey(pairs[i].key) && Supported(pairs[i].value)
    case RObject(_) => false
    case _ => true
  }

  function Concat<T>(parts: seq<seq<T>>, n: nat): seq<T>
    requires n <= |parts|
  {
    if n == 0 then [] else Concat(parts, n - 1) + parts[n - 1]
  }

  function PairFaults(pair: RPair, path: Path): seq<Fault>
    decreases pair
  {
    match KeyText(pair.key)
    case None => [BadKey(path, ClassName(pair.key))]
    case Some(text) => Faults(pair.value, path + [Key(text)])
  }

  function ItemFaults(item: RValue, path: Path, i: nat): seq<Fault>
    decreases item, 1
  {
    Faults(item, path + [Index(i)])
  }

  /** All the faults of an input, without stopping, in traversal order. The
      value under an unreadable key is not looked at. */
  function Faults(v: RValue, path: Path): seq<Fault>
    decreases v, 0
  {
    match v
    case RInteger(n) => if InI64(n) then [] else [TooWide]
    case RArray(items) => Concat(AllItemFaults(items, path), |items|)
    case RHash(pairs) => Concat(AllPairFaults(pairs, path), |pairs|)
    case RObject(className) => [Unsupported(path, className)]
    case _ => []
  }

  function AllItemFaults(items: seq<RValue>, path: Path): seq<seq<Fault>> {
    seq(|items|, i requires 0 <= i < |items| => ItemFaults(items[i], path, i))
  }

  function AllPairFaults(pairs: seq<RPair>, path: Path): seq<seq<Fault>> {
    seq(|pairs|, i requires 0 <= i < |pairs| => PairFaults(pairs[i], path))
  }

  /** A result that reports the first of these faults, or none if there is none. */
  predicate FirstOf<T>(r: Result<T, Fault>, faults: seq<Fault>) {
    if faults == [] then r.Success? else r.Failure? && r.error == faults[0]
  }

  lemma {:induction false} GatherFirstOf<T>(results: seq<Result<T, Fault>>, parts: seq<seq<Fault>>, n: nat)
    requires |results| == |parts| && n <= |parts|
    requires forall i | 0 <= i < |parts| :: FirstOf(results[i], parts[i])
    ensures FirstOf(Gather(results, n), Concat(parts, n))
  {
    if n > 0 {
      GatherFirstOf(results, parts, n - 1);
    }
  }

  /** Conversion fails with the first fault, and only if there is one. */
  lemma {:induction false} ConvertFindsFirstFault(v: RValue, path: Path)
    ensures FirstOf(Convert(v, path), Faults(v, path))
    decreases v
  {
    match v
    case RArray(items) =>
      var results, parts := ItemResults(items, path), AllItemFaults(items, path);
      forall i | 0 <= i < |items| ensures FirstOf(results[i], parts[i]) {
        assert results[i] == ItemResult(items[i], path, i) && parts[i] == ItemFaults(items[i], path, i);
        ConvertFindsFirstFault(items[i], path + [Index(i)]);
      }
      GatherFirstOf(results, parts, |items|);
    case RHash(pairs) =>
      var results, parts := PairResults(pairs, path), AllPairFaults(pairs, path);
      forall i | 0 <= i < |pairs| ensures FirstOf(results[i], parts[i]) {
        assert results[i] == PairResult(pairs[i], path) && parts[i] == PairFaults(pairs[i], path);
        if KeyText(pairs[i].key).Some? {
          ConvertFindsFirstFault(pairs[i].value, path + [Key(KeyText(pairs[i].key).value)]);
        }
      }
      GatherFirstOf(results, parts, |pairs|);
    case _ =>
  }

  lemma {:induction false} ConcatEmpty<T>(parts: seq<seq<T>>, n: nat)
    requires n <= |parts|
    ensures Concat(parts, n) == [] <==> forall i | 0 <= i < n :: parts[i] == []
  {
    if n > 0 {
      ConcatEmpty(parts, n - 1);
    }
  }

  lemma {:induction false} FaultlessIsSupported(v: RValue, path: Path)
    ensures Faults(v, path) == [] <==> Supported(v)
    decreases v
  {
    match v
    case RArray(items) =>
      var parts := AllItemFaults(items, path);
      forall i | 0 <= i < |items| ensures parts[i] == [] <==> Supported(items[i]) {
        assert parts[i] == ItemFaults(items[i], path, i);
        FaultlessIsSupported(items[i], path + [Index(i)]);
      }
      ConcatEmpty(parts, |items|);
    case RHash(pairs) =>
      var parts := AllPairFaults(pairs, path);
      forall i | 0 <= i < |pairs|
        ensures parts[i] == [] <==> TextKey(pairs[i].key) && Supported(pairs[i].value)
      {
        assert parts[i] == PairFaults(pairs[i], path);
        if KeyText(pairs[i].key).Some? {
          FaultlessIsSupported(pairs[i].value, path + [Key(KeyText(pairs[i].key).value)]);
        }
      }
      ConcatEmpty(parts, |pairs|);
    case _ =>
  }

  /** Conversion succeeds exactly on supported input. */
  lemma ConvertIsExact(v: RValue, path: Path)
    ensures Convert(v, path).Success? <==> Supported(v)
  {
    ConvertFindsFirstFault(v, path);
    FaultlessIsSupported(v, path);
  }

  /** `at` leads from `v` to `w`; of keys with the same text, any may be taken. */
  predicate Leads(v: RValue, at: Path, w: RValue)
    decreases |at|
  {
    if at == [] then v == w
    else
      match at[0]
      case Index(i) => v.RArray? && i < |v.items| && Leads(v.items[i], at[1..], w)
      case Key(name) =>
        v.RHash? && exists j | 0 <= j < |v.pairs| ::
          v.pairs[j].key in {RString(name), RSymbol(name)} && Leads(v.pairs[j].value, at[1..], w)
  }

  /** The object that is at fault, for faults that have a location. */
  predicate AtFault(fault: Fault, w: RValue) {
    match fault
    case Unsupported(_, actual) => w == RObject(actual)
    case BadKey(_, actual) =>
      w.RHash? && exists j | 0 <= j < |w.pairs| ::
        !TextKey(w.pairs[j].key) && ClassName(w.pairs[j].key) == actual
    case TooWide => w.RInteger? && !FitsI64(w.n)
  }

  lemma {:induction false} ConcatOrigin<T>(parts: seq<seq<T>>, n: nat, x: T) returns (i: nat)
    requires n <= |parts| && x in Concat(parts, n)
    ensures i < n && x in parts[i]
  {
    if x in parts[n - 1] {
      i := n - 1;
    } else {
      i := ConcatOrigin(parts, n - 1, x);
    }
  }

  lemma LeadsIndex(items: seq<RValue>, i: nat, rest: Path, w: RValue)
    requires i < |items| && Leads(items[i], rest, w)
    ensures Leads(RArray(items), [Index(i)] + rest, w)
  {
    assert ([Index(i)] + rest)[1..] == rest;
  }

  lemma LeadsKey(pairs: seq<RPair>, j: nat, text: string, rest: Path, w: RValue)
    requires j < |pairs| && KeyText(pairs[j].key) == Some(text) && Leads(pairs[j].value, rest, w)
    ensures Leads(RHash(pairs), [Key(text)] + rest, w)
  {
    assert ([Key(text)] + rest)[1..] == rest;
  }

  lemma {:induction false} ItemFaultIsReal(items: seq<RValue>, i: nat, path: Path, fault: Fault)
    returns (at: Path, w: RValue)
    requires i < |items| && fault in ItemFaults(items[i], path, i)
    ensures Leads(RArray(items), at, w) && AtFault(fault, w)
    ensures !fault.TooWide? ==> fault.at == path + at
    decreases items[i], 1
  {
    var rest;
    rest, w := FaultsAreReal(items[i], path + [Index(i)], fault);
    at := [Index(i)] + rest;
    LeadsIndex(items, i, rest, w);
    assert (path + [Index(i)]) + rest == path + at;
  }

  lemma {:induction false} PairFaultIsReal(pairs: seq<RPair>, i: nat, path: Path, fault: Fault)
    returns (at: Path, w: RValue)
    requires i < |pairs| && fault in PairFaults(pairs[i], path)
    ensures Leads(RHash(pairs), at, w) && AtFault(fault, w)
    ensures !fault.TooWide? ==> fault.at == path + at
    decreases pairs[i]
  {
    match KeyText(pairs[i].key)
    case None =>
      at, w := [], RHash(pairs);
      assert path + at == path;
      assert KeyText(w.pairs[i].key).None?;
    case Some(text) =>
      var rest;
      rest, w := FaultsAreReal(pairs[i].value, path + [Key(text)], fault);
      at := [Key(text)] + rest;
      LeadsKey(pairs, i, text, rest, w);
      assert (path + [Key(text)]) + rest == path + at;
  }

  /** Every fault is real: its location, if it has one, leads to the object at
      fault; for a bad key that is the hash holding it. */
  lemma {:induction false} FaultsAreReal(v: RValue, path: Path, fault: Fault) returns (at: Path, w: RValue)
    requires fault in Faults(v, path)
    ensures Leads(v, at, w) && AtFault(fault, w)
    ensures !fault.TooWide? ==> fault.at == path + at
    decreases v, 0
  {
    at, w := [], v;
    assert path + at == path;
    match v
    case RArray(items) =>
      var i := ConcatOrigin(AllItemFaults(items, path), |items|, fault);
      at, w := ItemFaultIsReal(items, i, path, fault);
    case RHash(pairs) =>
      var i := ConcatOrigin(AllPairFaults(pairs, path), |pairs|, fault);
      at, w := PairFaultIsReal(pairs, i, path, fault);
    case _ =>
  }

  /** No hash, at any depth, has two keys of the same text: `"a"` and `:a` both
      become `a`. */
  predicate KeyTextsDistinct(v: RValue) {
    match v
    case RArray(items) => forall i | 0 <= i < |items| :: KeyTextsDistinct(items[i])
    case RHash(pairs) =>
      && TextsDistinct(pairs)
      && forall i | 0 <= i < |pairs| :: KeyTextsDistinct(pairs[i].value)
    case _ => true
  }

  /** Converted values are struct-free, and have distinct keys exactly when the
      Ruby hashes have distinct key texts. */
  lemma {:induction false} ConvertedShape(v: RValue, path: Path)
    requires Convert(v, path).Success?
    ensures StructFree(Convert(v, path).value)
    ensures KeysDistinct(Convert(v, path).value) <==> KeyTextsDistinct(v)
    decreases v
  {
    match v
    case RArray(items) =>
      GatherSuccess(ItemResults(items, path), |items|);
      var out := Convert(v, path).value;
      forall i | 0 <= i < |items|
        ensures StructFree(out.items[i]) && (KeysDistinct(out.items[i]) <==> KeyTextsDistinct(items[i]))
      {
        assert ItemResults(items, path)[i] == ItemResult(items[i], path, i);
        ConvertedShape(items[i], path + [Index(i)]);
      }
    case RHash(pairs) => PairsShape(pairs, path);
    case _ =>
  }

  predicate TextsDistinct(pairs: seq<RPair>) {
    forall i, j | 0 <= i < j < |pairs| :: KeyText(pairs[i].key) != KeyText(pairs[j].key)
  }

  lemma DistinctTexts(pairs: seq<RPair>, entries: seq<Entry>)
    requires |entries| == |pairs|
    requires forall i | 0 <= i < |pairs| :: Some(entries[i].key) == KeyText(pairs[i].key)
    ensures Distinct(Keys(entries)) <==> TextsDistinct(pairs)
  {
    assert forall i | 0 <= i < |pairs| :: Some(Keys(entries)[i]) == KeyText(pairs[i].key);
    if !TextsDistinct(pairs) {
      var i, j :| 0 <= i < j < |pairs| && KeyText(pairs[i].key) == KeyText(pairs[j].key);
      assert Keys(entries)[i] == Keys(entries)[j];
    }
  }

  lemma {:induction false} PairsShape(pairs: seq<RPair>, path: Path)
    requires Convert(RHash(pairs), path).Success?
    ensures StructFree(Convert(RHash(pairs), path).value)
    ensures KeysDistinct(Convert(RHash(pairs), path).value) <==> KeyTextsDistinct(RHash(pairs))
    decreases pairs
  {
    GatherSuccess(PairResults(pairs, path), |pairs|);
    var entries := Convert(RHash(pairs), path).value.entries;
    forall i | 0 <= i < |pairs|
      ensures StructFree(entries[i].value) && Some(entries[i].key) == KeyText(pairs[i].key)
      ensures KeysDistinct(entries[i].value) <==> KeyTextsDistinct(pairs[i].value)
    {
      assert PairResults(pairs, path)[i] == PairResult(pairs[i], path);
      ConvertedShape(pairs[i].value, path + [Key(KeyText(pairs[i].key).value)]);
    }
    DistinctTexts(pairs, entries);
  }

  /** `v` is this Ruby value, kind by kind; a symbol key is as good as a string. */
  predicate Reads(x: RValue, v: Value)
    decreases x
  {
    match x
    case RNil => v == Value.Null
    case RTrue => v == Value.Bool(true)
    case RFalse => v == Value.Bool(false)
    case RInteger(n) => v.Int? && v.i == n
    case RFloat(f) => v == Value.Float(f)
    case RString(s) => v == Value.String(s)
    case RSymbol(name) => v == Value.Symbol(name)
    case RArray(items) =>
      v.List? && |v.items| == |items| && forall i | 0 <= i < |items| :: Reads(items[i], v.items[i])
    case RHash(pairs) =>
      v.Dict? && |v.entries| == |pairs| && forall i | 0 <= i < |pairs| ::
        && pairs[i].key in {RString(v.entries[i].key), RSymbol(v.entries[i].key)}
        && Reads(pairs[i].value, v.entries[i].value)
    case RObject(_) => false
  }

  /** Conversion gives the value that reads so, and fails where none does. */
  lemma {:induction false} ConvertReads(x: RValue, path: Path, v: Value)
    ensures Convert(x, path) == Success(v) <==> Reads(x, v)
    decreases x
  {
    match x
    case RArray(items) =>
      var results := ItemResults(items, path);
      if v.List? && |v.items| == |items| {
        forall i | 0 <= i < |items| ensures results[i] == Success(v.items[i]) <==> Reads(items[i], v.items[i]) {
          assert results[i] == ItemResult(items[i], path, i);
          ConvertReads(items[i], path + [Index(i)], v.items[i]);
        }
        GatherEquals(results, v.items);
      } else if Gather(results, |items|).Success? {
        GatherSuccess(results, |items|);
      }
    case RHash(pairs) =>
      var results := PairResults(pairs, path);
      if v.Dict? && |v.entries| == |pairs| {
        forall i | 0 <= i < |pairs|
          ensures results[i] == Success(v.entries[i])
             <==> && pairs[i].key in {RString(v.entries[i].key), RSymbol(v.entries[i].key)}
                  && Reads(pairs[i].value, v.entries[i].value)
        {
          assert results[i] == PairResult(pairs[i], path);
          ConvertReads(pairs[i].value, path + [Key(v.entries[i].key)], v.entries[i].value);
        }
        GatherEquals(results, v.entries);
      } else if Gather(results, |pairs|).Success? {
        GatherSuccess(results, |pairs|);
      }
    case _ =>
  }

  lemma {:induction false} GatherEquals<T, E>(results: seq<Result<T, E>>, xs: seq<T>)
    requires |results| == |xs|
    ensures Gather(results, |xs|) == Success(xs) <==> forall i | 0 <= i < |xs| :: results[i] == Success(xs[i])
  {
    assert xs[..|xs|] == xs;
    if Gather(results, |xs|) == Success(xs) {
      GatherSuccess(results, |xs|);
    }
    if forall i | 0 <= i < |xs| :: results[i] == Success(xs[i]) {
      GatherAll(results, xs, |xs|);
    }
  }

  /** At a place with this rendering is a hash with a key of this class, which is
      neither a string nor a symbol. */
  ghost predicate BadKeyAt(x: RValue, at: Path, text: string, actual: string) {
    && text == Render(at)
    && exists w | Leads(x, at, w) && w.RHash? :: exists j | 0 <= j < |w.pairs| ::
         !TextKey(w.pairs[j].key) && ClassName(w.pairs[j].key) == actual
  }

  /** At a place with this rendering is an object of this unsupported class. */
  ghost predicate UnsupportedAt(x: RValue, at: Path, text: string, actual: string) {
    text == Render(at) && Leads(x, at, RObject(actual))
  }

  /** Somewhere is an integer that 64 bits do not hold. */
  ghost predicate HoldsTooWide(x: RValue) {
    exists at, n :: Leads(x, at, RInteger(n)) && !FitsI64(n)
  }

  /** The error names this fault, at its place and by its class. */
  ghost predicate Blames(x: RValue, error: InputError, fault: Fault) {
    match error
    case InvalidHashKey(text, actual) =>
      fault.BadKey? && fault.actual == actual && BadKeyAt(x, fault.at, text, actual)
    case UnsupportedType(text, actual) =>
      fault.Unsupported? && fault.actual == actual && UnsupportedAt(x, fault.at, text, actual)
    case IntegerOutOfRange => fault.TooWide? && HoldsTooWide(x)
  }

  lemma {:induction false} FirstFaultBlamed(x: RValue)
    requires Convert(x, []).Failure?
    ensures Faults(x, []) != [] && Blames(x, Explain(Convert(x, []).error), Faults(x, [])[0])
  {
    ConvertFindsFirstFault(x, []);
    var fault := Faults(x, [])[0];
    var at, w := FaultsAreReal(x, [], fault);
    assert [] + at == at;
    if fault.TooWide? {
      assert Leads(x, at, RInteger(w.n)) && !FitsI64(w.n);
    }
  }

  /** Input conversion as the extension's entry point performs it: the value that
      reads so, or an error naming the first fault. */
  method ConvertOwned(v: RValue) returns (r: Result<Value, InputError>)
    ensures r.Success? <==> Supported(v)
    ensures r.Success? ==> Reads(v, r.value)
    ensures r.Failure? ==> Faults(v, []) != [] && Blames(v, r.error, Faults(v, [])[0])
    ensures r == match Convert(v, [])
                 case Success(x) => Success(x)
                 case Failure(f) => Failure(Explain(f))
  {
    var converter := new Converter();
    r := converter.ConvertValue(v);
    ConvertIsExact(v, []);
    if r.Success? {
      ConvertReads(v, [], r.value);
    } else {
      FirstFaultBlamed(v);
    }
  }
}
