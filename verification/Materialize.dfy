/** What validated outputs become in Ruby (`materialize.rs`), as values. The
    heap, and freezing, are in RubyHeap and Materializer. */
module Materialize {
  import opened Wrappers
  import opened Values
  import opened Ruby
  import opened NormalForms

  datatype MaterializeError =
    | UnsupportedRoot(typeName: string)
    | InvalidSymbol(name: string)
    | InvalidKey(name: string)

  /** Names pass through C strings, which cannot hold a NUL. */
  predicate NulFree(name: string) {
    '\0' !in name
  }

  function SymbolFor(name: string): Result<RValue, MaterializeError> {
    if NulFree(name) then Success(RSymbol(name)) else Failure(InvalidSymbol(name))
  }

  function AttributeKey(name: string): Result<RValue, MaterializeError> {
    if NulFree(name) then Success(RString(name)) else Failure(InvalidKey(name))
  }

  /** Storing under a key a hash has keeps that key's place. */
  function HashPut(pairs: seq<RPair>, put: RPair): seq<RPair> {
    if pairs == [] then [put]
    else if pairs[0].key == put.key then [put] + pairs[1..]
    else [pairs[0]] + HashPut(pairs[1..], put)
  }

  /** The hash after the first `n` stores into `base`. */
  function PutAll(base: seq<RPair>, puts: seq<RPair>, n: nat): seq<RPair>
    requires n <= |puts|
  {
    if n == 0 then base else HashPut(PutAll(base, puts, n - 1), puts[n - 1])
  }

  function HashOf(puts: seq<RPair>): RValue {
    RHash(PutAll([], puts, |puts|))
  }

  /** A dict entry: the key is made before the value. */
  function DictPut(e: Entry): Result<RPair, MaterializeError>
    decreases e
  {
    match SymbolFor(e.key)
    case Failure(f) => Failure(f)
    case Success(k) =>
      match ToRuby(e.value)
      case Failure(f) => Failure(f)
      case Success(x) => Success(RPair(k, x))
  }

  /** A struct field, if present: the value is made before the key. */
  function FieldPut(name: string, slot: Option<Value>): Result<Option<RPair>, MaterializeError>
    decreases slot
  {
    match slot
    case None => Success(None)
    case Some(v) =>
      match ToRuby(v)
      case Failure(f) => Failure(f)
      case Success(x) =>
        match SymbolFor(name)
        case Failure(f) => Failure(f)
        case Success(k) => Success(Some(RPair(k, x)))
  }

  /** An extra: kept under a string key. */
  function ExtraPut(e: Entry): Result<RPair, MaterializeError>
    decreases e
  {
    match ToRuby(e.value)
    case Failure(f) => Failure(f)
    case Success(x) =>
      match AttributeKey(e.key)
      case Failure(f) => Failure(f)
      case Success(k) => Success(RPair(k, x))
  }

  function Items(items: seq<Value>): seq<Result<RValue, MaterializeError>> {
    seq(|items|, i requires 0 <= i < |items| => ToRuby(items[i]))
  }

  function DictPuts(entries: seq<Entry>): seq<Result<RPair, MaterializeError>> {
    seq(|entries|, i requires 0 <= i < |entries| => DictPut(entries[i]))
  }

  function FieldPuts(names: seq<string>, fields: seq<Option<Value>>): seq<Result<Option<RPair>, MaterializeError>>
    decreases fields
  {
    seq(Shorter(|names|, |fields|), i requires 0 <= i < Shorter(|names|, |fields|) => FieldPut(names[i], fields[i]))
  }

  function ExtraPuts(extras: seq<Entry>): seq<Result<RPair, MaterializeError>> {
    seq(|extras|, i requires 0 <= i < |extras| => ExtraPut(extras[i]))
  }

  function Somes<T>(options: seq<Option<T>>, n: nat): seq<T>
    requires n <= |options|
  {
    if n == 0 then []
    else
      match options[n - 1]
      case Some(x) => Somes(options, n - 1) + [x]
      case None => Somes(options, n - 1)
  }

  function StructPuts(fields: Result<seq<Option<RPair>>, MaterializeError>,
                      extras: Result<seq<RPair>, MaterializeError>): Result<seq<RPair>, MaterializeError>
  {
    match fields
    case Failure(f) => Failure(f)
    case Success(fs) =>
      match extras
      case Failure(f) => Failure(f)
      case Success(es) => Success(Somes(fs, |fs|) + es)
  }

  function ToRuby(v: Value): Result<RValue, MaterializeError> {
    match v
    case Null => Success(RNil)
    case Bool(b) => Success(if b then RTrue else RFalse)
    case Int(i) => Success(RInteger(i))
    case Float(f) => Success(RFloat(f))
    case String(s) => Success(RString(s))
    case Symbol(name) => SymbolFor(name)
    case List(items) =>
      (match Gather(Items(items), |items|)
       case Success(xs) => Success(RArray(xs))
       case Failure(f) => Failure(f))
    case Dict(entries) =>
      (match Gather(DictPuts(entries), |entries|)
       case Success(puts) => Success(HashOf(puts))
       case Failure(f) => Failure(f))
    case Struct(names, fields, extras) =>
      (match StructPuts(Gather(FieldPuts(names, fields), |FieldPuts(names, fields)|),
                        Gather(ExtraPuts(extras), |extras|))
       case Success(puts) => Success(HashOf(puts))
       case Failure(f) => Failure(f))
  }

  predicate PairKeysDistinct(pairs: seq<RPair>) {
    forall i, j | 0 <= i < j < |pairs| :: pairs[i].key != pairs[j].key
  }

  lemma {:induction false} HashPutFresh(pairs: seq<RPair>, put: RPair)
    requires forall i | 0 <= i < |pairs| :: pairs[i].key != put.key
    ensures HashPut(pairs, put) == pairs + [put]
  {
    if pairs != [] {
      HashPutFresh(pairs[1..], put);
      assert pairs == [pairs[0]] + pairs[1..];
    }
  }

  /** Stores under distinct keys are just listed. */
  lemma {:induction false} PutAllDistinct(puts: seq<RPair>, n: nat)
    requires PairKeysDistinct(puts) && n <= |puts|
    ensures PutAll([], puts, n) == puts[..n]
  {
    if n > 0 {
      PutAllDistinct(puts, n - 1);
      HashPutFresh(puts[..n - 1], puts[n - 1]);
      assert puts[..n] == puts[..n - 1] + [puts[n - 1]];
    }
  }

  function PairKeys(pairs: seq<RPair>): seq<RValue> {
    seq(|pairs|, i requires 0 <= i < |pairs| => pairs[i].key)
  }

  function HashGet(pairs: seq<RPair>, key: RValue): Option<RValue> {
    if pairs == [] then None
    else if pairs[0].key == key then Some(pairs[0].value)
    else HashGet(pairs[1..], key)
  }

  lemma {:induction false} HashPutMeans(pairs: seq<RPair>, put: RPair)
    ensures PairKeys(HashPut(pairs, put))
         == if put.key in PairKeys(pairs) then PairKeys(pairs) else PairKeys(pairs) + [put.key]
    ensures forall key :: HashGet(HashPut(pairs, put), key)
                       == if key == put.key then Some(put.value) else HashGet(pairs, key)
  {
    if pairs != [] {
      assert PairKeys(pairs) == [pairs[0].key] + PairKeys(pairs[1..]);
      if pairs[0].key != put.key {
        HashPutMeans(pairs[1..], put);
        assert PairKeys(HashPut(pairs, put)) == [pairs[0].key] + PairKeys(HashPut(pairs[1..], put));
      }
    }
  }

  /** The last of the first `n` stores under a key. */
  function LastPut(puts: seq<RPair>, n: nat, key: RValue): Option<RValue>
    requires n <= |puts|
  {
    if n == 0 then None
    else if puts[n - 1].key == key then Some(puts[n - 1].value)
    else LastPut(puts, n - 1, key)
  }

  /** However it was filled, a hash has each key once, and under it what was
      stored last. */
  lemma {:induction false} HashHoldsLast(puts: seq<RPair>, n: nat)
    requires n <= |puts|
    ensures PairKeysDistinct(PutAll([], puts, n))
    ensures forall key :: HashGet(PutAll([], puts, n), key) == LastPut(puts, n, key)
  {
    if n > 0 {
      HashHoldsLast(puts, n - 1);
      var before := PutAll([], puts, n - 1);
      HashPutMeans(before, puts[n - 1]);
      KeysOnce(before);
      KeysOnce(HashPut(before, puts[n - 1]));
    }
  }

  lemma KeysOnce(pairs: seq<RPair>)
    ensures PairKeysDistinct(pairs)
       <==> forall i, j | 0 <= i < j < |pairs| :: PairKeys(pairs)[i] != PairKeys(pairs)[j]
  {
    if forall i, j | 0 <= i < j < |pairs| :: PairKeys(pairs)[i] != PairKeys(pairs)[j] {
      forall i, j | 0 <= i < j < |pairs| ensures pairs[i].key != pairs[j].key {
        assert PairKeys(pairs)[i] != PairKeys(pairs)[j];
      }
    }
  }
}
