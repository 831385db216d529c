/** The small things that everything else is said with, each pinned down by
    itself: comparisons, texts, names, numbers. */
module Vocabulary {
  import opened Wrappers
  import opened Values
  import opened Schema
  import opened Paths
  import opened Validation
  import opened Json
  import opened JsonInput
  import opened Ruby
  import opened RubyInput
  import opened Materialize
  import opened RubyHeap
  import opened Instances
  import opened SchemaParser
  import opened TypeNames

  /** A float is not below a bound: NaN never is, on either side. */
  predicate NotBelow(f: F64, bound: F64) {
    || f.NaN? || bound.NaN? || f.PosInf? || bound.NegInf?
    || (f.Finite? && bound.Finite? && bound.r <= f.r)
  }

  predicate NotAbove(f: F64, bound: F64) {
    || f.NaN? || bound.NaN? || f.NegInf? || bound.PosInf?
    || (f.Finite? && bound.Finite? && f.r <= bound.r)
  }

  /** JSON has no number for a bound that is not finite. */
  function BoundMeta(key: string, bound: F64): Meta {
    match bound
    case Finite(r) => map[key := Real(r)]
    case _ => map[]
  }

  /** Float bounds on the real line: each violated bound is reported, minimum
      first, and a value equal to its bound is none. */
  lemma {:induction false} FloatBounds(env: Env, c: FloatConstraints, path: Path, f: F64)
    ensures Validate(env, TypeExpr.Primitive(PrimitiveType.Float(c)), path, Value.Float(f))
         == Outcome(Some(Value.Float(f)),
              (if c.min.Some? && !NotBelow(f, c.min.value)
               then [Issue(path, "too_small", BoundMeta("min", c.min.value))] else []) +
              (if c.max.Some? && !NotAbove(f, c.max.value)
               then [Issue(path, "too_large", BoundMeta("max", c.max.value))] else []))
  {
  }

  /** In particular, between finite bounds. */
  lemma {:induction false} FiniteBetween(env: Env, min: real, max: real, path: Path, r: real)
    ensures var ty := TypeExpr.Primitive(PrimitiveType.Float(FloatConstraints(Some(Finite(min)), Some(Finite(max)))));
            Validate(env, ty, path, Value.Float(Finite(r))).issues == [] <==> min <= r <= max
  {
    FloatBounds(env, FloatConstraints(Some(Finite(min)), Some(Finite(max))), path, Finite(r));
  }

  /** A text read as a boolean: "true" and "false" in any case, "1" and "0". */
  lemma {:induction false} BoolTexts(env: Env, path: Path, s: string)
    requires !env.strict
    ensures Validate(env, TypeExpr.Primitive(PrimitiveType.Bool), path, Value.String(s))
         == if Spells(s, "true") || s == "1" then Accept(Value.Bool(true))
            else if Spells(s, "false") || s == "0" then Accept(Value.Bool(false))
            else Outcome(None, [Issue(path, "coerce_failed", map["from" := Text("str")])])
  {
    CaseIgnored(s, "true");
    CaseIgnored(s, "false");
  }

  lemma {:induction false} CaseIgnored(s: string, word: string)
    requires LowerLetters(word)
    ensures EqIgnoreAsciiCase(s, word) <==> Spells(s, word)
  {
    if |s| == |word| {
      forall i | 0 <= i < |word|
        ensures AsciiLower(s[i]) == AsciiLower(word[i]) <==> s[i] == word[i] || s[i] as int == word[i] as int - 32
      {
      }
    }
  }

  predicate HexText(s: string) {
    forall i | 0 <= i < |s| :: '0' <= s[i] <= '9' || 'a' <= s[i] <= 'f' || 'A' <= s[i] <= 'F'
  }

  predicate HexGroups(s: string, a: string, b: string, c: string, d: string, e: string) {
    && s == a + "-" + b + "-" + c + "-" + d + "-" + e
    && |a| == 8 && |b| == 4 && |c| == 4 && |d| == 4 && |e| == 12
    && HexText(a) && HexText(b) && HexText(c) && HexText(d) && HexText(e)
  }

  lemma {:induction false} UuidGroups(s: string)
    ensures HasFormat(Uuid, s) <==> exists a, b, c, d, e :: HexGroups(s, a, b, c, d, e)
  {
    if HasFormat(Uuid, s) {
      var a, b, c, d, e := s[..8], s[9..13], s[14..18], s[19..23], s[24..];
      assert s[8] == '-' && s[13] == '-' && s[18] == '-' && s[23] == '-';
      assert s == a + "-" + b + "-" + c + "-" + d + "-" + e;
      assert HexGroups(s, a, b, c, d, e);
    }
    if a, b, c, d, e :| HexGroups(s, a, b, c, d, e) {
      GroupsAreUuid(s, a, b, c, d, e);
    }
  }

  lemma {:induction false} GroupsAreUuid(s: string, a: string, b: string, c: string, d: string, e: string)
    requires HexGroups(s, a, b, c, d, e)
    ensures IsUuid(s)
  {
    forall i | 0 <= i < 36
      ensures if i in {8, 13, 18, 23} then s[i] == '-' else IsHexDigit(s[i])
    {
      if i < 8 {
        assert s[i] == a[i];
      } else if 9 <= i < 13 {
        assert s[i] == b[i - 9];
      } else if 14 <= i < 18 {
        assert s[i] == c[i - 14];
      } else if 19 <= i < 23 {
        assert s[i] == d[i - 19];
      } else if 24 <= i {
        assert s[i] == e[i - 24];
      }
    }
  }

  /** Formats: an at-sign; hexadecimal groups of 8-4-4-4-12; a web address. */
  lemma {:induction false} Formats(s: string)
    ensures HasFormat(Email, s) <==> exists i | 0 <= i < |s| :: s[i] == '@'
    ensures HasFormat(Uuid, s) <==> exists a, b, c, d, e :: HexGroups(s, a, b, c, d, e)
    ensures HasFormat(Url, s) <==> (exists rest :: s == "http://" + rest) || exists rest :: s == "https://" + rest
  {
    UuidGroups(s);
    if "http://" <= s {
      assert s == "http://" + s[7..];
    }
    if "https://" <= s {
      assert s == "https://" + s[8..];
    }
  }

  function KindOf(format: StringFormat): string {
    match format
    case Email => "email"
    case Uuid => "uuid"
    case Url => "url"
  }

  /** A broken format is reported under its name. */
  lemma {:induction false} FormatReported(env: Env, path: Path, s: string, format: StringFormat)
    ensures Validate(env, TypeExpr.Primitive(PrimitiveType.String(StringConstraints(None, None, Some(format)))),
                     path, Value.String(s))
         == Outcome(Some(Value.String(s)),
              if HasFormat(format, s) then [] else [Issue(path, "format_invalid", map["kind" := Text(KindOf(format))])])
  {
  }

  /** A size bound as JSON shows it: the upper half of 64 bits turns negative. */
  lemma {:induction false} SizeShown(n: Usize)
    ensures UsizeAsI64(n) == if n <= 9_223_372_036_854_775_807 then n else n - 18_446_744_073_709_551_616
  {
  }

  /** The names of kinds, where they are told: a root that is no struct. */
  lemma {:induction false} RootRefused(plan: seq<string>, root: Value, store: bool)
    requires !root.Struct?
    ensures InstanceOf(plan, root, store) == Failure(UnsupportedRoot(
              match root
              case Null => "null"
              case Bool(_) => "bool"
              case Int(_) => "int"
              case Float(_) => "float"
              case String(_) => "str"
              case Symbol(_) => "sym"
              case List(_) => "list"
              case Dict(_) => "dict"))
  {
  }

  /** The class of a Ruby object. */
  lemma {:induction false} Classes(n: int, f: F64, s: string, items: seq<RValue>, pairs: seq<RPair>)
    ensures ClassName(RNil) == "NilClass" && ClassName(RTrue) == "TrueClass" && ClassName(RFalse) == "FalseClass"
    ensures ClassName(RInteger(n)) == "Integer" && ClassName(RFloat(f)) == "Float"
    ensures ClassName(RString(s)) == "String" && ClassName(RSymbol(s)) == "Symbol"
    ensures ClassName(RArray(items)) == "Array" && ClassName(RHash(pairs)) == "Hash" && ClassName(RObject(s)) == s
  {
  }

  /** A JSON number is an integer if it is whole and fits 64 signed bits. */
  lemma {:induction false} NumbersRead(toF64: int -> F64, num: Number, v: Value)
    ensures Represents(toF64, JNumber(num), v)
       <==> match num
            case Unsigned(n) =>
              if n <= 9_223_372_036_854_775_807 then v.Int? && v.i == n else v == Value.Float(toF64(n))
            case Negative(i) => v.Int? && v.i == i
            case Fraction(r) => v == Value.Float(Finite(r))
  {
  }

  /** A schema reads whole numbers where it wants them, and no others. */
  lemma {:induction false} WholeNumbers(num: Number, path: string)
    ensures ParseI64(JNumber(num), path)
         == match num
            case Unsigned(n) =>
              if n <= 9_223_372_036_854_775_807 then Success(n) else Failure(InvalidSchema(path, NotInteger))
            case Negative(i) => Success(i)
            case Fraction(_) => Failure(InvalidSchema(path, NotInteger))
    ensures ParseUsize(JNumber(num), path)
         == if num.Unsigned? then Success(num.n) else Failure(InvalidSchema(path, NotUnsigned))
  {
  }

  /** The Ruby object for a scalar; a symbol must not hold the character NUL. */
  lemma {:induction false} ScalarsWritten(b: bool, i: I64, f: F64, s: string)
    ensures ToRuby(Value.Null) == Success(RNil)
    ensures ToRuby(Value.Bool(b)) == Success(if b then RTrue else RFalse)
    ensures ToRuby(Value.Int(i)) == Success(RInteger(i)) && ToRuby(Value.Float(f)) == Success(RFloat(f))
    ensures ToRuby(Value.String(s)) == Success(RString(s))
    ensures ToRuby(Value.Symbol(s))
         == if exists k | 0 <= k < |s| :: s[k] as int == 0 then Failure(InvalidSymbol(s)) else Success(RSymbol(s))
  {
    if k :| 0 <= k < |s| && s[k] as int == 0 {
      assert s[k] == '\0';
    }
  }

  /** What an immediate stands for. */
  lemma {:induction false} ImmediatesRead(objs: seq<Obj>, n: int, f: F64, s: string)
    requires Ordered(objs)
    ensures ReadBack(objs, VNil) == RNil && ReadBack(objs, VTrue) == RTrue && ReadBack(objs, VFalse) == RFalse
    ensures ReadBack(objs, VInteger(n)) == RInteger(n) && ReadBack(objs, VFloat(f)) == RFloat(f)
    ensures ReadBack(objs, VSymbol(s)) == RSymbol(s)
    ensures ReadKey(SymKey(s)) == RSymbol(s) && ReadKey(StrKey(s)) == RString(s)
  {
  }
}
