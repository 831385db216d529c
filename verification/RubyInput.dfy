/** Conversion of Ruby input into values (`validation/input.rs`). */
module RubyInput {
  import opened Wrappers
  import opened Values
  import opened Paths
  import opened Ruby

  datatype InputError =
    | UnsupportedType(path: string, actual: string)
    | InvalidHashKey(path: string, actual: string)
    | IntegerOutOfRange  // raised by Ruby itself, without a path

  /** What can be wrong with one object, and where it sits. */
  datatype Fault =
    | Unsupported(at: Path, actual: string)
    | BadKey(at: Path, actual: string)
    | TooWide

  function Explain(fault: Fault): InputError {
    match fault
    case Unsupported(at, actual) => UnsupportedType(Render(at), actual)
    case BadKey(at, actual) => InvalidHashKey(Render(at), actual)
    case TooWide => IntegerOutOfRange
  }

  function ItemResult(item: RValue, path: Path, i: nat): Result<Value, Fault>
    decreases item, 1
  {
    Convert(item, path + [Index(i)])
  }

  function PairResult(pair: RPair, path: Path): Result<Entry, Fault>
    decreases pair
  {
    match KeyText(pair.key)
    case None => Failure(BadKey(path, ClassName(pair.key)))
    case Some(text) =>
      match Convert(pair.value, path + [Key(text)])
      case Failure(f) => Failure(f)
      case Success(x) => Success(Entry(text, x))
  }

  function ItemResults(items: seq<RValue>, path: Path): seq<Result<Value, Fault>> {
    seq(|items|, i requires 0 <= i < |items| => ItemResult(items[i], path, i))
  }

  function PairResults(pairs: seq<RPair>, path: Path): seq<Result<Entry, Fault>> {
    seq(|pairs|, i requires 0 <= i < |pairs| => PairResult(pairs[i], path))
  }

  function Convert(v: RValue, path: Path): Result<Value, Fault>
    decreases v, 0
  {
    match v
    case RNil => Success(Value.Null)
    case RTrue => Success(Value.Bool(true))
    case RFalse => Success(Value.Bool(false))
    case RInteger(n) => if InI64(n) then Success(Value.Int(n)) else Failure(TooWide)
    case RFloat(f) => Success(Value.Float(f))
    case RString(s) => Success(Value.String(s))
    case RSymbol(name) => Success(Value.Symbol(name))
    case RArray(items) =>
      (match Gather(ItemResults(items, path), |items|)
       case Success(xs) => Success(Value.List(xs))
       case Failure(f) => Failure(f))
    case RHash(pairs) =>
      (match Gather(PairResults(pairs, path), |pairs|)
       case Success(es) => Success(Value.Dict(es))
       case Failure(f) => Failure(f))
    case RObject(className) => Failure(Unsupported(path, className))
  }

  /** The path stack once the first `n` items are through, or one of them has
      failed: its segment stays, with whatever it left there itself. */
  function StackAfterItems(items: seq<RValue>, path: Path, n: nat): Path
    requires n <= |items|
    decreases items, 0, n
  {
    if n == 0 then path
    else if Gather(ItemResults(items, path), n - 1).Failure? then StackAfterItems(items, path, n - 1)
    else if ItemResult(items[n - 1], path, n - 1).Success? then path
    else StackAfter(items[n - 1], path + [Index(n - 1)])
  }

  /** After a pair one segment is popped, whichever is on top. */
  function StackAfterPair(pair: RPair, path: Path): Path
    decreases pair, 0, 0
  {
    match KeyText(pair.key)
    case None => path
    case Some(text) =>
      var stack := StackAfter(pair.value, path + [Key(text)]);
      if stack == [] then [] else stack[..|stack| - 1]
  }

  function StackAfterPairs(pairs: seq<RPair>, path: Path, n: nat): Path
    requires n <= |pairs|
    decreases pairs, 0, n
  {
    if n == 0 then path
    else if Gather(PairResults(pairs, path), n - 1).Failure? then StackAfterPairs(pairs, path, n - 1)
    else if PairResult(pairs[n - 1], path).Success? then path
    else StackAfterPair(pairs[n - 1], path)
  }

  /** What conversion leaves on the path stack. */
  function StackAfter(v: RValue, path: Path): Path
    decreases v, 1, 0
  {
    match v
    case RArray(items) => StackAfterItems(items, path, |items|)
    case RHash(pairs) => StackAfterPairs(pairs, path, |pairs|)
    case _ => path
  }

  /** The first failure decides what is left, however many items follow. */
  lemma {:induction false} ItemsStop(items: seq<RValue>, path: Path, k: nat, n: nat)
    requires k < n <= |items|
    requires Gather(ItemResults(items, path), k).Success? && ItemResult(items[k], path, k).Failure?
    ensures StackAfterItems(items, path, n) == StackAfter(items[k], path + [Index(k)])
  {
    if k < n - 1 {
      ItemsStop(items, path, k, n - 1);
      GatherFails(ItemResults(items, path), k, n - 1);
    }
  }

  lemma {:induction false} PairsStop(pairs: seq<RPair>, path: Path, k: nat, n: nat)
    requires k < n <= |pairs|
    requires Gather(PairResults(pairs, path), k).Success? && PairResult(pairs[k], path).Failure?
    ensures StackAfterPairs(pairs, path, n) == StackAfterPair(pairs[k], path)
  {
    if k < n - 1 {
      PairsStop(pairs, path, k, n - 1);
      GatherFails(PairResults(pairs, path), k, n - 1);
    }
  }

  lemma ItemsThrough(items: seq<RValue>, path: Path)
    requires Gather(ItemResults(items, path), |items|).Success?
    ensures StackAfterItems(items, path, |items|) == path
  {
    if items != [] {
      var n := |items| - 1;
      GatherSuccess(ItemResults(items, path), |items|);
      assert ItemResults(items, path)[n] == ItemResult(items[n], path, n);
    }
  }

  lemma PairsThrough(pairs: seq<RPair>, path: Path)
    requires Gather(PairResults(pairs, path), |pairs|).Success?
    ensures StackAfterPairs(pairs, path, |pairs|) == path
  {
    if pairs != [] {
      var n := |pairs| - 1;
      GatherSuccess(PairResults(pairs, path), |pairs|);
      assert PairResults(pairs, path)[n] == PairResult(pairs[n], path);
    }
  }

  /** Success restores the stack; an error leaves it at least as long. */
  lemma {:induction false} StackRestored(v: RValue, path: Path)
    ensures Convert(v, path).Success? ==> StackAfter(v, path) == path
    ensures path <= StackAfter(v, path)
    decreases v, 1
  {
    match v
    case RArray(items) =>
      if Convert(v, path).Success? {
        ItemsThrough(items, path);
      } else {
        StackKeptByItems(items, path, |items|);
      }
    case RHash(pairs) =>
      if Convert(v, path).Success? {
        PairsThrough(pairs, path);
      } else {
        StackKeptByPairs(pairs, path, |pairs|);
      }
    case _ =>
  }

  lemma {:induction false} StackKeptByItems(items: seq<RValue>, path: Path, n: nat)
    requires n <= |items|
    ensures path <= StackAfterItems(items, path, n)
    decreases items, 0, n
  {
    if n > 0 {
      StackKeptByItems(items, path, n - 1);
      StackRestored(items[n - 1], path + [Index(n - 1)]);
    }
  }

  lemma {:induction false} StackKeptByPairs(pairs: seq<RPair>, path: Path, n: nat)
    requires n <= |pairs|
    ensures path <= StackAfterPairs(pairs, path, n)
    decreases pairs, 0, n
  {
    if n > 0 {
      StackKeptByPairs(pairs, path, n - 1);
      StackKeptByPair(pairs[n - 1], path);
    }
  }

  lemma {:induction false} StackKeptByPair(pair: RPair, path: Path)
    ensures path <= StackAfterPair(pair, path)
    decreases pair, 0, 0
  {
    if KeyText(pair.key).Some? {
      StackRestored(pair.value, path + [Key(KeyText(pair.key).value)]);
    }
  }

  /** An array that fails leaves the failing index on the stack. */
  lemma ArrayLeavesIndex(items: seq<RValue>, path: Path, k: nat)
    requires k < |items|
    requires Gather(ItemResults(items, path), k).Success? && ItemResult(items[k], path, k).Failure?
    ensures path + [Index(k)] <= StackAfter(RArray(items), path)
  {
    ItemsStop(items, path, k, |items|);
    StackRestored(items[k], path + [Index(k)]);
  }

  class Converter {
    var path: Path

    constructor ()
      ensures path == []
    {
      path := [];
    }

    /** On success the path stack is as before; after an error it may have
        been left longer, which nothing looks at any more. */
    method ConvertValue(v: RValue) returns (r: Result<Value, InputError>)
      modifies this
      ensures r == (match Convert(v, old(path))
                    case Success(x) => Success(x)
                    case Failure(f) => Failure(Explain(f)))
      ensures path == StackAfter(v, old(path))
      ensures if r.Success? then path == old(path) else old(path) <= path
      decreases v, 1
    {
      StackRestored(v, path);
      match v
      case RNil => r := Success(Value.Null);
      case RTrue => r := Success(Value.Bool(true));
      case RFalse => r := Success(Value.Bool(false));
      case RInteger(n) =>
        if InI64(n) {
          r := Success(Value.Int(n));
        } else {
          r := Failure(IntegerOutOfRange);
        }
      case RFloat(f) => r := Success(Value.Float(f));
      case RString(s) => r := Success(Value.String(s));
      case RSymbol(name) => r := Success(Value.Symbol(name));
      case RArray(items) => r := ConvertArray(v);
      case RHash(pairs) => r := ConvertHash(v);
      case RObject(className) =>
        var where := FormatPath(path);
        r := Failure(UnsupportedType(where, className));
    }

    method ConvertArray(v: RValue) returns (r: Result<Value, InputError>)
      requires v.RArray?
      modifies this
      ensures r == (match Convert(v, old(path))
                    case Success(x) => Success(x)
                    case Failure(f) => Failure(Explain(f)))
      ensures path == StackAfter(v, old(path))
      ensures if r.Success? then path == old(path) else old(path) <= path
      decreases v, 0
    {
      ghost var results := ItemResults(v.items, path);
      StackRestored(v, path);
      var items := [];
      for index := 0 to |v.items|
        invariant path == old(path)
        invariant Gather(results, index) == Success(items)
      {
        assert results[index] == ItemResult(v.items[index], old(path), index);
        path := path + [Index(index)];
        var converted := ConvertValue(v.items[index]);
        if converted.Failure? {
          ItemsStop(v.items, old(path), index, |v.items|);
          GatherFails(results, index, |v.items|);
          return Failure(converted.error);
        }
        path := path[..|path| - 1];
        items := items + [converted.value];
      }
      r := Success(Value.List(items));
    }

    method ConvertHash(v: RValue) returns (r: Result<Value, InputError>)
      requires v.RHash?
      modifies this
      ensures r == (match Convert(v, old(path))
                    case Success(x) => Success(x)
                    case Failure(f) => Failure(Explain(f)))
      ensures path == StackAfter(v, old(path))
      ensures if r.Success? then path == old(path) else old(path) <= path
      decreases v, 0
    {
      ghost var results := PairResults(v.pairs, path);
      StackRestored(v, path);
      var entries := [];
      for n := 0 to |v.pairs|
        invariant path == old(path)
        invariant Gather(results, n) == Success(entries)
      {
        assert results[n] == PairResult(v.pairs[n], old(path));
        var converted := ConvertPair(v.pairs[n]);
        if converted.Failure? {
          PairsStop(v.pairs, old(path), n, |v.pairs|);
          GatherFails(results, n, |v.pairs|);
          return Failure(converted.error);
        }
        entries := entries + [converted.value];
      }
      r := Success(Value.Dict(entries));
    }

    /** The hash iteration callback: an error stops the iteration. */
    method ConvertPair(pair: RPair) returns (r: Result<Entry, InputError>)
      modifies this
      ensures r == (match PairResult(pair, old(path))
                    case Success(x) => Success(x)
                    case Failure(f) => Failure(Explain(f)))
      ensures path == StackAfterPair(pair, old(path))
      ensures if r.Success? then path == old(path) else old(path) <= path
      decreases pair
    {
      var text := KeyText(pair.key);
      if text.None? {
        var where := FormatPath(path);
        return Failure(InvalidHashKey(where, ClassName(pair.key)));
      }
      StackRestored(pair.value, path + [Key(text.value)]);
      path := path + [Key(text.value)];
      var converted := ConvertValue(pair.value);
      path := path[..|path| - 1];
      r := match converted
           case Success(x) => Success(Entry(text.value, x))
           case Failure(e) => Failure(e);
    }
  }
}
