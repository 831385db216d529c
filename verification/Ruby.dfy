/** Ruby objects, as far as the extension looks into them. */
module Ruby {
  import opened Wrappers
  import opened Values

  datatype RPair = RPair(key: RValue, value: RValue)

  /** `RObject` is any object of a class the extension does not convert. A
      hash is listed in its iteration order. */
  datatype RValue =
    | RNil
    | RTrue
    | RFalse
    | RInteger(n: int)
    | RFloat(f: F64)
    | RString(s: string)
    | RSymbol(name: string)
    | RArray(items: seq<RValue>)
    | RHash(pairs: seq<RPair>)
    | RObject(className: string)

  function ClassName(v: RValue): string {
    match v
    case RNil => "NilClass"
    case RTrue => "TrueClass"
    case RFalse => "FalseClass"
    case RInteger(_) => "Integer"
    case RFloat(_) => "Float"
    case RString(_) => "String"
    case RSymbol(_) => "Symbol"
    case RArray(_) => "Array"
    case RHash(_) => "Hash"
    case RObject(className) => className
  }

  predicate InI64(n: int) {
    -0x8000_0000_0000_0000 <= n < 0x8000_0000_0000_0000
  }

  /** The text of a hash key, for the two kinds of keys that have one. */
  function KeyText(key: RValue): Option<string> {
    match key
    case RString(s) => Some(s)
    case RSymbol(name) => Some(name)
    case _ => None
  }
}
