/** The value tree that validation reads and produces (`validation/value.rs`),
    with Rust's number types made explicit. */
module Values {
  import opened Wrappers

  type I64 = x: int | -0x8000_0000_0000_0000 <= x < 0x8000_0000_0000_0000

  type Usize = x: int | 0 <= x < 0x1_0000_0000_0000_0000

  /** Rust's `n as i64` on a `usize`: the upper half wraps to the negatives. */
  function UsizeAsI64(n: Usize): I64 {
    if n < 0x8000_0000_0000_0000 then n else n - 0x1_0000_0000_0000_0000
  }

  /** An `f64` up to what the code observes: comparison and equality. The two
      zeros are one value, and NaN is equal to itself as under `OrderedFloat`. */
  datatype F64 = NaN | NegInf | Finite(r: real) | PosInf

  /** IEEE `a < b`: false whenever either side is NaN. */
  predicate Less(a: F64, b: F64) {
    match (a, b)
    case (NegInf, Finite(_)) => true
    case (NegInf, PosInf) => true
    case (Finite(x), Finite(y)) => x < y
    case (Finite(_), PosInf) => true
    case _ => false
  }

  datatype Entry = Entry(key: string, value: Value)

  /** A struct's `extras` is absent in the source until the first extra is kept,
      so absent and empty coincide; `[]` stands for both. */
  datatype Value =
    | Null
    | Bool(b: bool)
    | Int(i: I64)
    | Float(f: F64)
    | String(s: string)
    | Symbol(name: string)
    | List(items: seq<Value>)
    | Dict(entries: seq<Entry>)
    | Struct(names: seq<string>, fields: seq<Option<Value>>, extras: seq<Entry>)

  function TypeName(v: Value): string {
    match v
    case Null => "null"
    case Bool(_) => "bool"
    case Int(_) => "int"
    case Float(_) => "float"
    case String(_) => "str"
    case Symbol(_) => "sym"
    case List(_) => "list"
    case Dict(_) => "dict"
    case Struct(_, _, _) => "struct"
  }

  /** First entry with the given key; a dict is a sequence and may repeat keys. */
  function DictFind(entries: seq<Entry>, key: string): Option<Value> {
    if entries == [] then None
    else if entries[0].key == key then Some(entries[0].value)
    else DictFind(entries[1..], key)
  }

  predicate Distinct(names: seq<string>) {
    forall i, j | 0 <= i < j < |names| :: names[i] != names[j]
  }

  function Keys(entries: seq<Entry>): seq<string> {
    seq(|entries|, i requires 0 <= i < |entries| => entries[i].key)
  }

  /** No dict, at any depth, repeats a key; no struct repeats a field name. */
  predicate KeysDistinct(v: Value) {
    match v
    case List(items) => forall i | 0 <= i < |items| :: KeysDistinct(items[i])
    case Dict(entries) =>
      && Distinct(Keys(entries))
      && forall i | 0 <= i < |entries| :: KeysDistinct(entries[i].value)
    case Struct(names, fields, extras) =>
      && Distinct(names)
      && (forall i | 0 <= i < |fields| :: fields[i].Some? ==> KeysDistinct(fields[i].value))
      && Distinct(Keys(extras))
      && forall i | 0 <= i < |extras| :: KeysDistinct(extras[i].value)
    case _ => true
  }

  /** Converted inputs never contain a struct; only validation builds them. */
  predicate StructFree(v: Value) {
    match v
    case List(items) => forall i | 0 <= i < |items| :: StructFree(items[i])
    case Dict(entries) => forall i | 0 <= i < |entries| :: StructFree(entries[i].value)
    case Struct(_, _, _) => false
    case _ => true
  }

  lemma {:induction false} DictFindAbsent(entries: seq<Entry>, key: string)
    ensures DictFind(entries, key).None? <==> key !in Keys(entries)
  {
    if entries != [] {
      DictFindAbsent(entries[1..], key);
      assert Keys(entries) == [entries[0].key] + Keys(entries[1..]);
    }
  }

  /** What a lookup returns is the value of the first entry under that key. */
  lemma {:induction false} DictFindIndex(entries: seq<Entry>, key: string) returns (k: nat)
    requires DictFind(entries, key).Some?
    ensures k < |entries| && entries[k].key == key
    ensures DictFind(entries, key) == Some(entries[k].value)
    ensures forall j | 0 <= j < k :: entries[j].key != key
  {
    if entries[0].key == key {
      k := 0;
    } else {
      var k' := DictFindIndex(entries[1..], key);
      k := k' + 1;
      forall j | 0 <= j < k ensures entries[j].key != key {
        if j > 0 {
          assert entries[1..][j - 1] == entries[j];
        }
      }
    }
  }

  /** With distinct keys every entry is the one a lookup finds. */
  lemma DictFindAt(entries: seq<Entry>, k: nat)
    requires Distinct(Keys(entries)) && k < |entries|
    ensures DictFind(entries, entries[k].key) == Some(entries[k].value)
  {
    var key := entries[k].key;
    assert key in Keys(entries) by {
      assert Keys(entries)[k] == key;
    }
    DictFindAbsent(entries, key);
    var j := DictFindIndex(entries, key);
    assert j == k by {
      assert Keys(entries)[j] == Keys(entries)[k];
    }
  }

  lemma {:induction false} FindAppend(a: seq<Entry>, b: seq<Entry>, key: string)
    ensures DictFind(a + b, key) == if DictFind(a, key).Some? then DictFind(a, key) else DictFind(b, key)
  {
    if a == [] {
      assert a + b == b;
    } else {
      FindAppend(a[1..], b, key);
      assert (a + b)[1..] == a[1..] + b;
    }
  }
}
