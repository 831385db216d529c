/** Path segments and their textual rendering, which `validation/engine.rs`
    and `validation/input.rs` both define. */
module Paths {
  import opened Wrappers

  datatype Segment = Key(name: string) | Index(index: nat)

  type Path = seq<Segment>

  function Digit(d: nat): char
    requires d < 10
  {
    ('0' as int + d) as char
  }

  predicate IsDigit(c: char) {
    '0' <= c <= '9'
  }

  function DigitValue(c: char): nat
    requires IsDigit(c)
  {
    c as int - '0' as int
  }

  /** Decimal digits of a number, without leading zeros. */
  function Decimal(n: nat): string {
    if n < 10 then [Digit(n)] else Decimal(n / 10) + [Digit(n % 10)]
  }

  /** The rendering of a path, built up segment by segment from the left. */
  function Render(path: Path): string {
    if path == [] then ""
    else
      var out := Render(path[..|path| - 1]);
      match path[|path| - 1]
      case Key(name) => (if out != "" then out + "." else out) + name
      case Index(index) => out + "[" + Decimal(index) + "]"
  }

  method FormatPath(path: Path) returns (out: string)
    ensures out == Render(path)
  {
    out := "";
    for n := 0 to |path|
      invariant out == Render(path[..n])
    {
      match path[n] {
        case Key(name) =>
          if out != "" {
            out := out + ".";
          }
          out := out + name;
        case Index(index) =>
          out := out + "[" + Decimal(index) + "]";
      }
      assert path[..n + 1][..n] == path[..n];
    }
    assert path[..|path|] == path;
  }

  /** Keys whose text cannot be mistaken for path punctuation. */
  predicate PlainKey(name: string) {
    name != "" && '.' !in name && '[' !in name
  }

  predicate PlainPath(path: Path) {
    forall i | 0 <= i < |path| && path[i].Key? :: PlainKey(path[i].name)
  }

  /** Length of the longest prefix of `s` free of `.` and `[`. */
  function KeyLength(s: string): (n: nat)
    ensures n <= |s|
  {
    if s == "" || s[0] == '.' || s[0] == '[' then 0 else 1 + KeyLength(s[1..])
  }

  function DigitsLength(s: string): (n: nat)
    ensures n <= |s|
  {
    if s == "" || !IsDigit(s[0]) then 0 else 1 + DigitsLength(s[1..])
  }

  function ReadDecimal(s: string): nat
    requires forall i | 0 <= i < |s| :: IsDigit(s[i])
  {
    if s == "" then 0 else 10 * ReadDecimal(s[..|s| - 1]) + DigitValue(s[|s| - 1])
  }

  lemma {:induction false} DigitsLengthDigits(s: string)
    ensures forall i | 0 <= i < DigitsLength(s) :: IsDigit(s[i])
  {
    if s != "" && IsDigit(s[0]) {
      DigitsLengthDigits(s[1..]);
      forall i | 0 <= i < DigitsLength(s) ensures IsDigit(s[i]) {
        if i > 0 {
          assert s[i] == s[1..][i - 1];
        }
      }
    }
  }

  function Push(segment: Segment, rest: Option<Path>): Option<Path> {
    if rest.Some? then Some([segment] + rest.value) else None
  }

  /** Reads a rendered path back, left to right; `first` is true before the
      first segment, where a key has no leading dot. */
  function Decode(s: string, first: bool): Option<Path>
    decreases |s|
  {
    if s == "" then Some([])
    else if s[0] == '[' then
      var n := DigitsLength(s[1..]);
      DigitsLengthDigits(s[1..]);
      if n > 0 && n + 1 < |s| && s[n + 1] == ']' then
        assert forall i | 0 <= i < n :: s[1..n + 1][i] == s[1..][i];
        Push(Index(ReadDecimal(s[1..n + 1])), Decode(s[n + 2..], false))
      else None
    else
      var body := if first then s else if s[0] == '.' then s[1..] else "";
      var n := KeyLength(body);
      if n == 0 then None
      else Push(Key(body[..n]), Decode(body[n..], false))
  }

  /** The same rendering, from the front: `first` says nothing precedes it. */
  function RenderFrom(path: Path, first: bool): string {
    if path == [] then ""
    else
      match path[0]
      case Key(name) => (if first then "" else ".") + name + RenderFrom(path[1..], false)
      case Index(index) => "[" + Decimal(index) + "]" + RenderFrom(path[1..], false)
  }

  lemma {:induction false} RenderFromAppend(path: Path, last: Segment, first: bool)
    ensures RenderFrom(path + [last], first)
         == RenderFrom(path, first) + RenderFrom([last], first && path == [])
  {
    if path == [] {
      assert path + [last] == [last];
    } else {
      RenderFromAppend(path[1..], last, false);
      assert (path + [last])[1..] == path[1..] + [last];
    }
  }

  /** How one more segment reads after `out`, which is empty only in front. */
  function Piece(last: Segment, first: bool): string {
    match last
    case Key(name) => (if first then "" else ".") + name
    case Index(index) => "[" + Decimal(index) + "]"
  }

  lemma RenderFromOne(last: Segment, first: bool)
    ensures RenderFrom([last], first) == Piece(last, first)
  {
    assert [last][1..] == [];
    assert RenderFrom([], false) == "";
  }

  lemma RenderSnoc(front: Path, last: Segment)
    ensures Render(front + [last]) == Render(front) + Piece(last, Render(front) == "")
  {
    assert (front + [last])[..|front|] == front;
    match last
    case Key(name) =>
      var out := Render(front);
      assert (out + ".") + name == out + ("." + name);
    case Index(index) =>
      assert Render(front) + "[" + Decimal(index) + "]" == Render(front) + ("[" + Decimal(index) + "]");
  }

  lemma {:induction false} RenderIsRenderFrom(path: Path)
    requires PlainPath(path)
    ensures Render(path) == RenderFrom(path, true)
    ensures Render(path) == "" <==> path == []
  {
    if path != [] {
      var front, last := path[..|path| - 1], path[|path| - 1];
      RenderIsRenderFrom(front);
      RenderFromAppend(front, last, true);
      RenderFromOne(last, front == []);
      RenderSnoc(front, last);
      assert path == front + [last];
      assert Piece(last, front == []) != "";
    }
  }

  lemma ReadSnoc(ds: string, d: nat)
    requires d < 10 && forall i | 0 <= i < |ds| :: IsDigit(ds[i])
    ensures forall i | 0 <= i < |ds + [Digit(d)]| :: IsDigit((ds + [Digit(d)])[i])
    ensures ReadDecimal(ds + [Digit(d)]) == 10 * ReadDecimal(ds) + d
  {
    var s := ds + [Digit(d)];
    assert s[..|s| - 1] == ds;
  }

  lemma {:induction false} DecimalReads(n: nat)
    ensures Decimal(n) != ""
    ensures forall i | 0 <= i < |Decimal(n)| :: IsDigit(Decimal(n)[i])
    ensures ReadDecimal(Decimal(n)) == n
  {
    if n < 10 {
      ReadSnoc("", n);
      assert Decimal(n) == "" + [Digit(n)];
    } else {
      DecimalReads(n / 10);
      ReadSnoc(Decimal(n / 10), n % 10);
    }
  }

  lemma {:induction false} DigitsLengthAppend(ds: string, rest: string)
    requires forall i | 0 <= i < |ds| :: IsDigit(ds[i])
    requires rest != "" && !IsDigit(rest[0])
    ensures DigitsLength(ds + rest) == |ds|
  {
    if ds == "" {
      assert ds + rest == rest;
    } else {
      DigitsLengthAppend(ds[1..], rest);
      assert (ds + rest)[1..] == ds[1..] + rest;
    }
  }

  lemma {:induction false} KeyLengthAppend(name: string, rest: string)
    requires '.' !in name && '[' !in name
    requires rest != "" ==> rest[0] == '.' || rest[0] == '['
    ensures KeyLength(name + rest) == |name|
  {
    if name == "" {
      assert name + rest == rest;
    } else {
      KeyLengthAppend(name[1..], rest);
      assert (name + rest)[1..] == name[1..] + rest;
    }
  }

  lemma DecodeIndex(index: nat, rest: string, first: bool)
    ensures Decode("[" + Decimal(index) + "]" + rest, first) == Push(Index(index), Decode(rest, false))
  {
    var ds := Decimal(index);
    var s := "[" + ds + "]" + rest;
    DecimalReads(index);
    DigitsLengthAppend(ds, "]" + rest);
    assert s[1..] == ds + ("]" + rest);
    assert s[1..|ds| + 1] == ds;
    assert s[|ds| + 2..] == rest;
  }

  lemma DecodeKey(name: string, rest: string, first: bool)
    requires PlainKey(name)
    requires rest != "" ==> rest[0] == '.' || rest[0] == '['
    ensures Decode((if first then "" else ".") + name + rest, first) == Push(Key(name), Decode(rest, false))
  {
    var s := (if first then "" else ".") + name + rest;
    var body := name + rest;
    KeyLengthAppend(name, rest);
    assert body[..|name|] == name && body[|name|..] == rest;
    assert s[0] != '[';
    assert (if first then s else s[1..]) == body;
  }

  lemma {:induction false} DecodeRenderFrom(path: Path, first: bool)
    requires PlainPath(path)
    ensures Decode(RenderFrom(path, first), first) == Some(path)
    decreases |path|
  {
    if path != [] {
      var rest := RenderFrom(path[1..], false);
      DecodeRenderFrom(path[1..], false);
      assert path == [path[0]] + path[1..];
      match path[0]
      case Index(index) => DecodeIndex(index, rest, first);
      case Key(name) => DecodeKey(name, rest, first);
    }
  }

  lemma {:induction false} PlainPrefix(s: string)
    ensures forall i | 0 <= i < KeyLength(s) :: s[i] != '.' && s[i] != '['
  {
    if s != "" && s[0] != '.' && s[0] != '[' {
      PlainPrefix(s[1..]);
      forall i | 0 <= i < KeyLength(s) ensures s[i] != '.' && s[i] != '[' {
        if i > 0 {
          assert s[i] == s[1..][i - 1];
        }
      }
    }
  }

  /** Only plain keys are ever read. */
  lemma {:induction false} DecodeIsPlain(s: string, first: bool)
    requires Decode(s, first).Some?
    ensures PlainPath(Decode(s, first).value)
    decreases |s|
  {
    if s != "" {
      if s[0] == '[' {
        DecodeIsPlain(s[DigitsLength(s[1..]) + 2..], false);
      } else {
        var body := if first then s else s[1..];
        PlainPrefix(body);
        DecodeIsPlain(body[KeyLength(body)..], false);
      }
    }
  }

  /** A path can be read back from its rendering exactly when its keys are
      plain. */
  lemma RenderDecodes(path: Path)
    ensures Decode(Render(path), true) == Some(path) <==> PlainPath(path)
  {
    if PlainPath(path) {
      RenderIsRenderFrom(path);
      DecodeRenderFrom(path, true);
    } else if Decode(Render(path), true) == Some(path) {
      DecodeIsPlain(Render(path), true);
    }
  }

  lemma RenderInjective(p: Path, q: Path)
    requires PlainPath(p) && PlainPath(q) && Render(p) == Render(q)
    ensures p == q
  {
    RenderDecodes(p);
    RenderDecodes(q);
  }

  lemma {:induction false} RenderEmptyKeyPrefix(path: Path)
    ensures Render([Key("")] + path) == Render(path)
  {
    if path == [] {
      assert [Key("")] + path == [Key("")];
      assert [Key("")][..0] == [];
    } else {
      var front := path[..|path| - 1];
      RenderEmptyKeyPrefix(front);
      assert ([Key("")] + path)[..|path|] == [Key("")] + front;
    }
  }

  /** None of the three conditions on keys can be dropped: an empty key is
      invisible in front of any path, and a dot or a bracket inside a key reads
      as structure. */
  lemma RenderAmbiguous(path: Path, x: string, y: string, index: nat)
    requires x != ""
    ensures Render([Key("")] + path) == Render(path)
    ensures Render([Key(x + "." + y)]) == Render([Key(x), Key(y)])
    ensures Render([Key(x + "[" + Decimal(index) + "]")]) == Render([Key(x), Index(index)])
  {
    RenderEmptyKeyPrefix(path);
    RenderOne(x);
    RenderOne(x + "." + y);
    RenderOne(x + "[" + Decimal(index) + "]");
    assert [Key(x), Key(y)][..1] == [Key(x)];
    assert [Key(x), Index(index)][..1] == [Key(x)];
  }

  lemma RenderOne(name: string)
    ensures Render([Key(name)]) == name
  {
    assert [Key(name)][..0] == [];
  }
}
