/** JSON documents as `serde_json` presents them: object members are a map. */
module Json {
  import opened Wrappers
  import opened Values

  datatype Number = Unsigned(n: Usize) | Negative(i: I64) | Fraction(r: real)

  datatype Json =
    | JNull
    | JBool(b: bool)
    | JNumber(num: Number)
    | JString(s: string)
    | JArray(items: seq<Json>)
    | JObject(members: map<string, Json>)

  type Members = map<string, Json>

  function AsI64(num: Number): Option<I64> {
    match num
    case Unsigned(n) => if n < 0x8000_0000_0000_0000 then Some(n) else None
    case Negative(i) => Some(i)
    case Fraction(_) => None
  }

  function AsU64(num: Number): Option<Usize> {
    match num
    case Unsigned(n) => Some(n)
    case _ => None
  }

  function AsF64(toF64: int -> F64, num: Number): F64 {
    match num
    case Unsigned(n) => toF64(n)
    case Negative(i) => toF64(i)
    case Fraction(r) => Finite(r)
  }

  ghost function Greatest(s: set<nat>): (m: nat)
    ensures forall x | x in s :: x <= m
    ensures s != {} ==> m in s
  {
    if s == {} then 0
    else
      var x :| x in s;
      var rest := Greatest(s - {x});
      assert forall y | y in s :: y == x || y in s - {x};
      if rest < x then x else rest
  }

  /** A size that any two parts of a document fit into together. */
  ghost function Weight(j: Json): (n: nat)
    ensures n > 0
  {
    match j
    case JArray(items) => 1 + 2 * Greatest(set i | 0 <= i < |items| :: Weight(items[i]))
    case JObject(members) => 1 + 2 * Greatest(set k | k in members :: Weight(members[k]))
    case _ => 1
  }

  lemma WeightItem(items: seq<Json>, i: nat)
    requires i < |items|
    ensures 2 * Weight(items[i]) < Weight(JArray(items))
  {
    var weights := set k | 0 <= k < |items| :: Weight(items[k]);
    assert Weight(items[i]) in weights;
  }

  lemma WeightMember(members: Members, k: string)
    requires k in members
    ensures 2 * Weight(members[k]) < Weight(JObject(members))
  {
    var weights := set m | m in members :: Weight(members[m]);
    assert Weight(members[k]) in weights;
  }
}
