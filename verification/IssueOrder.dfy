/** The order in which issues come, said of the type and the input alone. */
module IssueOrder {
  import opened Wrappers
  import opened Values
  import opened Schema
  import opened Paths
  import opened Validation
  import opened Reporting

  /** At one place: the minimum before the maximum, and both before the format. */
  function CodeRank(code: string): nat {
    if code == "too_large" || code == "too_long" then 1
    else if code == "format_invalid" then 2
    else 0
  }

  /** Every entry under the one key stands before every entry under the other. */
  predicate EntriesBefore(entries: seq<Entry>, key: string, other: string) {
    forall i, j | 0 <= i < |entries| && 0 <= j < |entries| && entries[i].key == key && entries[j].key == other ::
      i < j
  }

  predicate NamesBefore(fields: seq<FieldExpr>, name: string, other: string) {
    forall i, j | 0 <= i < |fields| && 0 <= j < |fields| && fields[i].name == name && fields[j].name == other ::
      i < j
  }

  predicate Declared(fields: seq<FieldExpr>, name: string) {
    exists i | 0 <= i < |fields| :: fields[i].name == name
  }

  /** No entry but the `i`th has its key. */
  predicate OnlyEntry(entries: seq<Entry>, i: nat, key: string) {
    && i < |entries| && entries[i].key == key
    && forall j | 0 <= j < |entries| && entries[j].key == key :: j == i
  }

  predicate OnlyField(fields: seq<FieldExpr>, i: nat, name: string) {
    && i < |fields| && fields[i].name == name
    && forall j | 0 <= j < |fields| && fields[j].name == name :: j == i
  }

  predicate BeforeInField(field: FieldExpr, entries: seq<Entry>, at: Path, code: string, bt: Path, also: string)
    decreases field
  {
    match DictFind(entries, field.name)
    case Some(x) => Before(field.ty, x, at, code, bt, also)
    case None => false
  }

  /** An issue at `at` with `code` belongs before one at `bt` with `also`:
      elements by position and then the size; declared fields in the order of
      their declaration and then other entries in theirs; deeper down the same. */
  predicate Before(ty: TypeExpr, v: Value, at: Path, code: string, bt: Path, also: string)
    decreases ty
  {
    match ty
    case Primitive(_) => at == bt == [] && CodeRank(code) < CodeRank(also)
    case Enum(_) => false
    case Optional(of) => Before(of, v, at, code, bt, also)
    case List(of, _) =>
      if at == [] then bt == [] && CodeRank(code) < CodeRank(also)
      else if bt == [] then true
      else
        && v.List? && at[0].Index? && bt[0].Index?
        && (|| at[0].index < bt[0].index
            || (at[0].index == bt[0].index < |v.items|
                && Before(of, v.items[at[0].index], at[1..], code, bt[1..], also)))
    case Dict(of, _) =>
      if at == [] then bt == [] && CodeRank(code) < CodeRank(also)
      else if bt == [] then true
      else
        && v.Dict? && at[0].Key? && bt[0].Key?
        && (|| (at[0] != bt[0] && EntriesBefore(v.entries, at[0].name, bt[0].name))
            || (at[0] == bt[0] && exists i | 0 <= i < |v.entries| ::
                  && OnlyEntry(v.entries, i, at[0].name)
                  && Before(of, v.entries[i].value, at[1..], code, bt[1..], also)))
    case Struct(fields, _) =>
      && v.Dict? && at != [] && bt != [] && at[0].Key? && bt[0].Key?
      && if !Declared(fields, at[0].name) then
           && !Declared(fields, bt[0].name) && at[0] != bt[0]
           && EntriesBefore(v.entries, at[0].name, bt[0].name)
         else if !Declared(fields, bt[0].name) then true
         else if at[0] != bt[0] then NamesBefore(fields, at[0].name, bt[0].name)
         else exists i | 0 <= i < |fields| ::
           && OnlyField(fields, i, at[0].name)
           && BeforeInField(fields[i], v.entries, at[1..], code, bt[1..], also)
  }

  /** The order among issues reported from below `path`. */
  predicate Precedes(ty: TypeExpr, v: Value, path: Path, a: Issue, b: Issue) {
    && path <= a.path && path <= b.path
    && Before(ty, v, a.path[|path|..], a.code, b.path[|path|..], b.code)
  }

  function Order(ty: TypeExpr, v: Value, path: Path): (Issue, Issue) -> bool {
    (a, b) => Precedes(ty, v, path, a, b)
  }

  /** No issue comes after one that it belongs before. */
  predicate Sorted(issues: seq<Issue>, before: (Issue, Issue) -> bool) {
    forall i, j | 0 <= i < j < |issues| :: !before(issues[j], issues[i])
  }

  ghost predicate NoneBefore(a: seq<Issue>, b: seq<Issue>, before: (Issue, Issue) -> bool) {
    forall x, y | x in a && y in b :: !before(y, x)
  }

  lemma {:induction false} SortedAppend(a: seq<Issue>, b: seq<Issue>, before: (Issue, Issue) -> bool)
    requires Sorted(a, before) && Sorted(b, before) && NoneBefore(a, b, before)
    ensures Sorted(a + b, before)
  {
    forall i, j | 0 <= i < j < |a + b| ensures !before((a + b)[j], (a + b)[i]) {
      if i < |a| <= j {
        assert a[i] in a && b[j - |a|] in b;
      }
    }
  }

  lemma {:induction false} SortedFirst<T>(outcomes: seq<Outcome<T>>, n: nat, before: (Issue, Issue) -> bool)
    requires n <= |outcomes| && forall i | 0 <= i < |outcomes| :: Sorted(outcomes[i].issues, before)
    requires forall i, j | 0 <= i < j < |outcomes| :: NoneBefore(outcomes[i].issues, outcomes[j].issues, before)
    ensures Sorted(CollectFirst(outcomes, n).issues, before)
  {
    if n > 0 {
      SortedFirst(outcomes, n - 1, before);
      var front, last := CollectFirst(outcomes, n - 1).issues, outcomes[n - 1].issues;
      forall x, y | x in front && y in last ensures !before(y, x) {
        ReportedFirst(outcomes, n - 1, x);
        var i :| 0 <= i < n - 1 && x in outcomes[i].issues;
        assert NoneBefore(outcomes[i].issues, last, before);
      }
      SortedAppend(front, last, before);
    }
  }

  /** Issues all at one place, in the order of their codes. */
  predicate Ranked(issues: seq<Issue>, path: Path) {
    && (forall k | 0 <= k < |issues| :: issues[k].path == path)
    && forall i, j | 0 <= i < j < |issues| :: CodeRank(issues[i].code) <= CodeRank(issues[j].code)
  }

  lemma {:induction false} RankedSorted(issues: seq<Issue>, ty: TypeExpr, v: Value, path: Path)
    requires !ty.Optional? && Ranked(issues, path)
    ensures Sorted(issues, Order(ty, v, path))
  {
    forall i, j | 0 <= i < j < |issues| ensures !Order(ty, v, path)(issues[j], issues[i]) {
      assert path[|path|..] == [];
    }
  }

  lemma {:induction false} SizesRanked(path: Path, n: nat, minSize: Option<Usize>, maxSize: Option<Usize>)
    ensures Ranked(SizeIssues(path, n, minSize, maxSize), path)
    ensures forall issue | issue in SizeIssues(path, n, minSize, maxSize) :: CodeRank(issue.code) < 2
  {
  }

  lemma {:induction false} BoundsRanked(path: Path, i: I64, ints: IntConstraints, f: F64, floats: FloatConstraints)
    ensures Ranked(IntIssues(path, i, ints), path) && Ranked(FloatIssues(path, f, floats), path)
  {
  }

  lemma {:induction false} StringsRanked(path: Path, s: string, c: StringConstraints)
    ensures Ranked(StringIssues(path, s, c), path)
  {
    var sizes := SizeIssues(path, |s|, c.minSize, c.maxSize);
    var format := StringIssues(path, s, StringConstraints(None, None, c.format));
    SizesRanked(path, |s|, c.minSize, c.maxSize);
    assert StringIssues(path, s, c) == sizes + format;
    forall i | 0 <= i < |sizes| ensures CodeRank(sizes[i].code) < 2 {
      assert sizes[i] in sizes;
    }
  }

  lemma {:induction false} PrimitiveRanked(env: Env, primitive: PrimitiveType, path: Path, v: Value)
    ensures Ranked(ValidatePrimitive(env, primitive, path, v).issues, path)
  {
    match primitive
    case Int(c) =>
      if AsInt(env, v).Some? {
        BoundsRanked(path, AsInt(env, v).value, c, NaN, FloatConstraints(None, None));
        assert ValidatePrimitive(env, primitive, path, v).issues == IntIssues(path, AsInt(env, v).value, c);
      }
    case Float(c) =>
      if AsFloat(env, v).Some? {
        BoundsRanked(path, 0, IntConstraints(None, None), AsFloat(env, v).value, c);
        assert ValidatePrimitive(env, primitive, path, v).issues == FloatIssues(path, AsFloat(env, v).value, c);
      }
    case String(c) =>
      if v.String? {
        StringsRanked(path, v.s, c);
        assert ValidatePrimitive(env, primitive, path, v).issues == StringIssues(path, v.s, c);
      }
    case _ =>
  }

  /** Where an issue from one step down lies, seen from above. */
  lemma {:induction false} StepDown(env: Env, of: TypeExpr, path: Path, step: Segment, v: Value, issue: Issue)
    requires issue in Validate(env, of, path + [step], v).issues
    ensures path <= issue.path && |path| < |issue.path|
    ensures issue.path[|path|..] != [] && issue.path[|path|..][0] == step
    ensures path + [step] <= issue.path
    ensures issue.path[|path + [step]|..] == issue.path[|path|..][1..]
  {
    IssuesAreFaults(env, of, path + [step], v, issue);
    StepPrefix(path, step, issue.path);
  }

  /** Elements first, and then their number. */
  lemma {:induction false} SizesLast(ty: TypeExpr, v: Value, path: Path, inner: seq<Issue>, n: nat,
                                     c: CollectionConstraints)
    requires ty.List? || ty.Dict?
    requires Sorted(inner, Order(ty, v, path)) && forall issue | issue in inner :: path < issue.path
    ensures Sorted(inner + SizeIssues(path, n, c.minSize, c.maxSize), Order(ty, v, path))
  {
    var sizes := SizeIssues(path, n, c.minSize, c.maxSize);
    SizesRanked(path, n, c.minSize, c.maxSize);
    RankedSorted(sizes, ty, v, path);
    forall x, y | x in inner && y in sizes ensures !Order(ty, v, path)(y, x) {
      assert y.path[|path|..] == [] && x.path[|path|..] != [];
    }
    SortedAppend(inner, sizes, Order(ty, v, path));
  }

  lemma {:induction false} ListInOrder(env: Env, ty: TypeExpr, path: Path, v: Value)
    requires ty.List? && v.List?
    ensures Sorted(Validate(env, ty, path, v).issues, Order(ty, v, path))
    decreases ty, 1
  {
    var outcomes, before := ItemOutcomes(env, ty.of, path, v.items), Order(ty, v, path);
    forall i | 0 <= i < |outcomes| ensures Sorted(outcomes[i].issues, before) {
      ItemInOrder(env, ty, path, v, i);
    }
    forall i, j | 0 <= i < j < |outcomes| ensures NoneBefore(outcomes[i].issues, outcomes[j].issues, before) {
      assert outcomes[i] == ItemOutcome(env, ty.of, path, i, v.items[i]);
      assert outcomes[j] == ItemOutcome(env, ty.of, path, j, v.items[j]);
      forall x, y | x in outcomes[i].issues && y in outcomes[j].issues ensures !before(y, x) {
        StepDown(env, ty.of, path, Index(i), v.items[i], x);
        StepDown(env, ty.of, path, Index(j), v.items[j], y);
      }
    }
    SortedFirst(outcomes, |outcomes|, before);
    var r := Collect(outcomes);
    forall issue | issue in r.issues ensures path < issue.path {
      ItemsReported(env, ty.of, path, v.items, issue);
    }
    SizesLast(ty, v, path, r.issues, |r.values|, ty.constraints);
  }

  lemma {:induction false} ItemInOrder(env: Env, ty: TypeExpr, path: Path, v: Value, i: nat)
    requires ty.List? && v.List? && i < |v.items|
    ensures Sorted(ItemOutcomes(env, ty.of, path, v.items)[i].issues, Order(ty, v, path))
    decreases ty, 0
  {
    var below := path + [Index(i)];
    var issues := ItemOutcomes(env, ty.of, path, v.items)[i].issues;
    assert issues == ItemOutcome(env, ty.of, path, i, v.items[i]).issues;
    IssuesInOrder(env, ty.of, below, v.items[i]);
    forall k, m | 0 <= k < m < |issues| ensures !Order(ty, v, path)(issues[m], issues[k]) {
      assert issues[m] in issues && issues[k] in issues;
      StepDown(env, ty.of, path, Index(i), v.items[i], issues[m]);
      StepDown(env, ty.of, path, Index(i), v.items[i], issues[k]);
      assert !Order(ty.of, v.items[i], below)(issues[m], issues[k]);
    }
  }

  lemma {:induction false} DictInOrder(env: Env, ty: TypeExpr, path: Path, v: Value)
    requires ty.Dict? && v.Dict?
    ensures Sorted(Validate(env, ty, path, v).issues, Order(ty, v, path))
    decreases ty, 1
  {
    var outcomes, before := EntryOutcomes(env, ty.value, path, v.entries), Order(ty, v, path);
    forall i | 0 <= i < |outcomes| ensures Sorted(outcomes[i].issues, before) {
      EntryInOrder(env, ty, path, v, i);
    }
    forall i, j | 0 <= i < j < |outcomes| ensures NoneBefore(outcomes[i].issues, outcomes[j].issues, before) {
      var d, e := v.entries[i], v.entries[j];
      assert outcomes[i] == EntryOutcome(env, ty.value, path, d);
      assert outcomes[j] == EntryOutcome(env, ty.value, path, e);
      forall x, y | x in outcomes[i].issues && y in outcomes[j].issues ensures !before(y, x) {
        StepDown(env, ty.value, path, Key(d.key), d.value, x);
        StepDown(env, ty.value, path, Key(e.key), e.value, y);
        assert d.key != e.key ==> !EntriesBefore(v.entries, e.key, d.key);
      }
    }
    SortedFirst(outcomes, |outcomes|, before);
    var r := Collect(outcomes);
    forall issue | issue in r.issues ensures path < issue.path {
      EntriesReported(env, ty.value, path, v.entries, issue);
    }
    SizesLast(ty, v, path, r.issues, |r.values|, ty.constraints);
  }

  lemma {:induction false} EntryInOrder(env: Env, ty: TypeExpr, path: Path, v: Value, i: nat)
    requires ty.Dict? && v.Dict? && i < |v.entries|
    ensures Sorted(EntryOutcomes(env, ty.value, path, v.entries)[i].issues, Order(ty, v, path))
    decreases ty, 0
  {
    var e := v.entries[i];
    var below := path + [Key(e.key)];
    var issues := EntryOutcomes(env, ty.value, path, v.entries)[i].issues;
    assert issues == EntryOutcome(env, ty.value, path, e).issues;
    IssuesInOrder(env, ty.value, below, e.value);
    forall k, m | 0 <= k < m < |issues| ensures !Order(ty, v, path)(issues[m], issues[k]) {
      assert issues[m] in issues && issues[k] in issues;
      StepDown(env, ty.value, path, Key(e.key), e.value, issues[m]);
      StepDown(env, ty.value, path, Key(e.key), e.value, issues[k]);
      assert !Order(ty.value, e.value, below)(issues[m], issues[k]);
      forall n | 0 <= n < |v.entries| && OnlyEntry(v.entries, n, e.key) ensures n == i {
      }
    }
  }

  /** What is reported about a field lies under its name. */
  lemma {:induction false} UnderName(env: Env, field: FieldExpr, path: Path, entries: seq<Entry>, issue: Issue)
    requires issue in FieldOutcome(env, field, path, entries).issues
    ensures path <= issue.path && issue.path[|path|..] != [] && issue.path[|path|..][0] == Key(field.name)
  {
    FieldReported(env, field, path, entries, issue);
  }

  /** Within a field, the order is that of its type. */
  lemma {:induction false} SameFieldOrder(ty: TypeExpr, v: Value, path: Path, i: nat, x: Value, a: Issue, b: Issue)
    requires ty.Struct? && v.Dict? && i < |ty.fields| && DictFind(v.entries, ty.fields[i].name) == Some(x)
    requires var below := path + [Key(ty.fields[i].name)];
             && below <= a.path && below <= b.path && path <= a.path && path <= b.path
             && a.path[|path|..] == [Key(ty.fields[i].name)] + a.path[|below|..]
             && b.path[|path|..] == [Key(ty.fields[i].name)] + b.path[|below|..]
    requires Precedes(ty, v, path, a, b)
    ensures Precedes(ty.fields[i].ty, x, path + [Key(ty.fields[i].name)], a, b)
  {
    var name, below := ty.fields[i].name, path + [Key(ty.fields[i].name)];
    assert Declared(ty.fields, name);
    var n :| 0 <= n < |ty.fields| && OnlyField(ty.fields, n, name)
      && BeforeInField(ty.fields[n], v.entries, a.path[|below|..], a.code, b.path[|below|..], b.code);
    assert n == i;
  }

  lemma {:induction false} FieldInOrder(env: Env, ty: TypeExpr, path: Path, v: Value, i: nat)
    requires ty.Struct? && v.Dict? && i < |ty.fields|
    ensures Sorted(FieldOutcomes(env, ty, path, v.entries)[i].issues, Order(ty, v, path))
    decreases ty, 0
  {
    var field := ty.fields[i];
    var below := path + [Key(field.name)];
    var issues := FieldOutcomes(env, ty, path, v.entries)[i].issues;
    assert issues == FieldOutcome(env, field, path, v.entries).issues;
    if DictFind(v.entries, field.name).Some? {
      var x := DictFind(v.entries, field.name).value;
      IssuesInOrder(env, field.ty, below, x);
      forall k, m | 0 <= k < m < |issues| ensures !Order(ty, v, path)(issues[m], issues[k]) {
        assert issues[m] in issues && issues[k] in issues;
        StepDown(env, field.ty, path, Key(field.name), x, issues[m]);
        StepDown(env, field.ty, path, Key(field.name), x, issues[k]);
        assert !Order(field.ty, x, below)(issues[m], issues[k]);
        if Precedes(ty, v, path, issues[m], issues[k]) {
          SameFieldOrder(ty, v, path, i, x, issues[m], issues[k]);
        }
      }
    }
  }

  lemma {:induction false} FieldsInOrder(env: Env, ty: TypeExpr, path: Path, v: Value)
    requires ty.Struct? && v.Dict?
    ensures Sorted(Collect(FieldOutcomes(env, ty, path, v.entries)).issues, Order(ty, v, path))
    decreases ty, 1
  {
    var outcomes, before := FieldOutcomes(env, ty, path, v.entries), Order(ty, v, path);
    forall i | 0 <= i < |outcomes| ensures Sorted(outcomes[i].issues, before) {
      FieldInOrder(env, ty, path, v, i);
    }
    forall i, j | 0 <= i < j < |outcomes| ensures NoneBefore(outcomes[i].issues, outcomes[j].issues, before) {
      var f, g := ty.fields[i], ty.fields[j];
      assert outcomes[i] == FieldOutcome(env, f, path, v.entries);
      assert outcomes[j] == FieldOutcome(env, g, path, v.entries);
      forall x, y | x in outcomes[i].issues && y in outcomes[j].issues ensures !before(y, x) {
        UnderName(env, f, path, v.entries, x);
        UnderName(env, g, path, v.entries, y);
        assert Declared(ty.fields, f.name) && Declared(ty.fields, g.name);
        assert f.name != g.name ==> !NamesBefore(ty.fields, g.name, f.name);
        assert f.name == g.name ==> forall n | 0 <= n < |ty.fields| :: !OnlyField(ty.fields, n, f.name);
      }
    }
    SortedFirst(outcomes, |outcomes|, before);
  }

  lemma {:induction false} ExtrasInOrder(ty: TypeExpr, extra: ExtraBehavior, path: Path, v: Value)
    requires ty.Struct? && v.Dict?
    ensures Sorted(Collect(ExtraOutcomes(FieldNames(ty.fields), extra, path, v.entries)).issues, Order(ty, v, path))
  {
    var names := FieldNames(ty.fields);
    var outcomes, before := ExtraOutcomes(names, extra, path, v.entries), Order(ty, v, path);
    forall i | 0 <= i < |outcomes| ensures Sorted(outcomes[i].issues, before) {
      assert outcomes[i] == ExtraOutcome(names, extra, path, v.entries[i]);
    }
    forall i, j | 0 <= i < j < |outcomes| ensures NoneBefore(outcomes[i].issues, outcomes[j].issues, before) {
      assert outcomes[i] == ExtraOutcome(names, extra, path, v.entries[i]);
      assert outcomes[j] == ExtraOutcome(names, extra, path, v.entries[j]);
      forall x, y | x in outcomes[i].issues && y in outcomes[j].issues ensures !before(y, x) {
        ExtraPlace(ty.fields, path, v.entries[i].key, x);
        ExtraPlace(ty.fields, path, v.entries[j].key, y);
        assert v.entries[i].key != v.entries[j].key
          ==> !EntriesBefore(v.entries, v.entries[j].key, v.entries[i].key);
      }
    }
    SortedFirst(outcomes, |outcomes|, before);
  }

  lemma {:induction false} ExtraPlace(fields: seq<FieldExpr>, path: Path, key: string, issue: Issue)
    requires issue.path == path + [Key(key)] && key !in FieldNames(fields)
    ensures path <= issue.path && issue.path[|path|..] == [Key(key)] && !Declared(fields, key)
  {
    forall i | 0 <= i < |fields| ensures fields[i].name != key {
      assert FieldNames(fields)[i] in FieldNames(fields);
    }
  }

  lemma {:induction false} StructInOrder(env: Env, ty: TypeExpr, path: Path, v: Value)
    requires ty.Struct? && v.Dict?
    ensures Sorted(Validate(env, ty, path, v).issues, Order(ty, v, path))
    decreases ty, 2
  {
    var names, extra := FieldNames(ty.fields), EffectiveExtra(env, ty.extra, path);
    var slots := Collect(FieldOutcomes(env, ty, path, v.entries)).issues;
    var extras := Collect(ExtraOutcomes(names, extra, path, v.entries)).issues;
    FieldsInOrder(env, ty, path, v);
    ExtrasInOrder(ty, extra, path, v);
    forall x, y | x in slots && y in extras ensures !Order(ty, v, path)(y, x) {
      FieldsReported(env, ty, path, v.entries, x);
      ExtrasReported(names, extra, path, v.entries, y);
      var i :| 0 <= i < |ty.fields|
        && FieldBroken(env, ty.fields[i], v.entries, x.path[|path|..], x.code, x.meta);
      var k :| 0 <= k < |v.entries| && ExtraBroken(names, extra, v.entries[k], y.path[|path|..], y.code, y.meta);
      assert Declared(ty.fields, ty.fields[i].name);
      assert y.path[|path|..] == [Key(v.entries[k].key)];
      SplitPath(path, Key(v.entries[k].key), y.path);
      ExtraPlace(ty.fields, path, v.entries[k].key, y);
    }
    SortedAppend(slots, extras, Order(ty, v, path));
  }

  /** Issues come in the order that the type and the input give them. */
  lemma {:induction false} IssuesInOrder(env: Env, ty: TypeExpr, path: Path, v: Value)
    ensures Sorted(Validate(env, ty, path, v).issues, Order(ty, v, path))
    decreases ty, 3
  {
    match ty
    case Primitive(primitive) =>
      PrimitiveRanked(env, primitive, path, v);
      RankedSorted(Validate(env, ty, path, v).issues, ty, v, path);
    case Enum(_) => RankedSorted(Validate(env, ty, path, v).issues, ty, v, path);
    case Optional(of) =>
      if !v.Null? {
        IssuesInOrder(env, of, path, v);
        var issues := Validate(env, of, path, v).issues;
        forall i, j | 0 <= i < j < |issues| ensures !Order(ty, v, path)(issues[j], issues[i]) {
          assert !Order(of, v, path)(issues[j], issues[i]);
        }
      }
    case List(_, _) =>
      if v.List? {
        ListInOrder(env, ty, path, v);
      }
    case Dict(_, _) =>
      if v.Dict? {
        DictInOrder(env, ty, path, v);
      }
    case Struct(_, _) =>
      if v.Dict? {
        StructInOrder(env, ty, path, v);
      }
  }

  lemma {:induction false} PrimitiveTotal(env: Env, primitive: PrimitiveType, v: Value, code: string, meta: Meta,
                                          also: string, more: Meta)
    requires PrimitiveBroken(env, primitive, v, code, meta) && PrimitiveBroken(env, primitive, v, also, more)
    requires (code, meta) != (also, more)
    ensures CodeRank(code) != CodeRank(also)
  {
  }

  lemma {:induction false} FieldTotal(env: Env, field: FieldExpr, entries: seq<Entry>, at: Path, code: string,
                                      meta: Meta, bt: Path, also: string, more: Meta)
    requires NamesDistinct(field.ty) && forall i | 0 <= i < |entries| :: KeysDistinct(entries[i].value)
    requires FieldBroken(env, field, entries, at, code, meta) && FieldBroken(env, field, entries, bt, also, more)
    requires (at, code, meta) != (bt, also, more)
    ensures BeforeInField(field, entries, at[1..], code, bt[1..], also)
         || BeforeInField(field, entries, bt[1..], also, at[1..], code)
    decreases field
  {
    assert at == [at[0]] + at[1..] && bt == [bt[0]] + bt[1..];
    if DictFind(entries, field.name).Some? {
      var k := DictFindIndex(entries, field.name);
      OrderIsTotal(env, field.ty, false, entries[k].value, at[1..], code, meta, bt[1..], also, more);
    }
  }

  lemma {:induction false} StructTotal(env: Env, ty: TypeExpr, root: bool, v: Value, at: Path, code: string,
                                       meta: Meta, bt: Path, also: string, more: Meta)
    requires ty.Struct? && KeysDistinct(v) && NamesDistinct(ty)
    requires Broken(env, ty, root, v, at, code, meta) && Broken(env, ty, root, v, bt, also, more)
    requires (at, code, meta) != (bt, also, more)
    ensures Before(ty, v, at, code, bt, also) || Before(ty, v, bt, also, at, code)
    decreases ty, 0
  {
    var fields, extra := ty.fields, if root then env.extraBehavior else ty.extra;
    assert v.Dict?;
    if i :| 0 <= i < |fields| && FieldBroken(env, fields[i], v.entries, at, code, meta) {
      NameUnique(fields, i);
      if j :| 0 <= j < |fields| && FieldBroken(env, fields[j], v.entries, bt, also, more) {
        NameUnique(fields, j);
        if i == j {
          FieldTotal(env, fields[i], v.entries, at, code, meta, bt, also, more);
        } else if i < j {
          assert NamesBefore(fields, fields[i].name, fields[j].name);
        } else {
          assert NamesBefore(fields, fields[j].name, fields[i].name);
        }
      } else {
        UndeclaredPlace(env, fields, extra, v.entries, bt, also, more);
      }
    } else {
      UndeclaredPlace(env, fields, extra, v.entries, at, code, meta);
      if j :| 0 <= j < |fields| && FieldBroken(env, fields[j], v.entries, bt, also, more) {
        NameUnique(fields, j);
      } else {
        UndeclaredPlace(env, fields, extra, v.entries, bt, also, more);
        EitherEntryFirst(v.entries, at[0].name, bt[0].name);
      }
    }
  }

  lemma {:induction false} NameUnique(fields: seq<FieldExpr>, i: nat)
    requires Distinct(FieldNames(fields)) && i < |fields|
    ensures Declared(fields, fields[i].name) && OnlyField(fields, i, fields[i].name)
  {
    forall j | 0 <= j < |fields| && fields[j].name == fields[i].name ensures j == i {
      assert FieldNames(fields)[j] == FieldNames(fields)[i];
    }
  }

  lemma {:induction false} KeyUnique(entries: seq<Entry>, i: nat)
    requires Distinct(Keys(entries)) && i < |entries|
    ensures OnlyEntry(entries, i, entries[i].key)
  {
    forall j | 0 <= j < |entries| && entries[j].key == entries[i].key ensures j == i {
      assert Keys(entries)[j] == Keys(entries)[i];
    }
  }

  lemma {:induction false} UndeclaredPlace(env: Env, fields: seq<FieldExpr>, extra: ExtraBehavior, entries: seq<Entry>,
                                           at: Path, code: string, meta: Meta)
    requires exists k | 0 <= k < |entries| :: ExtraBroken(FieldNames(fields), extra, entries[k], at, code, meta)
    ensures at != [] && at[0].Key? && at == [at[0]] && !Declared(fields, at[0].name) && at[0].name in Keys(entries)
    ensures code == "extra_key" && meta == map["name" := Text(at[0].name)]
  {
    var k :| 0 <= k < |entries| && ExtraBroken(FieldNames(fields), extra, entries[k], at, code, meta);
    assert Keys(entries)[k] == entries[k].key;
    forall i | 0 <= i < |fields| ensures fields[i].name != entries[k].key {
      assert FieldNames(fields)[i] in FieldNames(fields);
    }
  }

  lemma {:induction false} EitherEntryFirst(entries: seq<Entry>, key: string, other: string)
    requires Distinct(Keys(entries)) && key in Keys(entries) && other in Keys(entries) && key != other
    ensures EntriesBefore(entries, key, other) || EntriesBefore(entries, other, key)
  {
    var i :| 0 <= i < |entries| && Keys(entries)[i] == key;
    var j :| 0 <= j < |entries| && Keys(entries)[j] == other;
    KeyUnique(entries, i);
    KeyUnique(entries, j);
  }

  lemma {:induction false} DictTotal(env: Env, ty: TypeExpr, root: bool, v: Value, at: Path, code: string,
                                     meta: Meta, bt: Path, also: string, more: Meta)
    requires ty.Dict? && v.Dict? && KeysDistinct(v) && NamesDistinct(ty) && at != [] && bt != []
    requires Broken(env, ty, root, v, at, code, meta) && Broken(env, ty, root, v, bt, also, more)
    requires (at, code, meta) != (bt, also, more)
    ensures Before(ty, v, at, code, bt, also) || Before(ty, v, bt, also, at, code)
    decreases ty, 0
  {
    var i :| 0 <= i < |v.entries| && at[0] == Key(v.entries[i].key)
      && Broken(env, ty.value, false, v.entries[i].value, at[1..], code, meta);
    var j :| 0 <= j < |v.entries| && bt[0] == Key(v.entries[j].key)
      && Broken(env, ty.value, false, v.entries[j].value, bt[1..], also, more);
    KeyUnique(v.entries, i);
    KeyUnique(v.entries, j);
    assert at == [at[0]] + at[1..] && bt == [bt[0]] + bt[1..];
    if i == j {
      OrderIsTotal(env, ty.value, false, v.entries[i].value, at[1..], code, meta, bt[1..], also, more);
    } else {
      assert Keys(v.entries)[i] in Keys(v.entries) && Keys(v.entries)[j] in Keys(v.entries);
      EitherEntryFirst(v.entries, v.entries[i].key, v.entries[j].key);
    }
  }

  lemma {:induction false} ListTotal(env: Env, ty: TypeExpr, root: bool, v: Value, at: Path, code: string,
                                     meta: Meta, bt: Path, also: string, more: Meta)
    requires ty.List? && v.List? && KeysDistinct(v) && NamesDistinct(ty) && at != [] && bt != []
    requires Broken(env, ty, root, v, at, code, meta) && Broken(env, ty, root, v, bt, also, more)
    requires (at, code, meta) != (bt, also, more)
    ensures Before(ty, v, at, code, bt, also) || Before(ty, v, bt, also, at, code)
    decreases ty, 0
  {
    assert at == [at[0]] + at[1..] && bt == [bt[0]] + bt[1..];
    if at[0] == bt[0] {
      var i := at[0].index;
      OrderIsTotal(env, ty.of, false, v.items[i], at[1..], code, meta, bt[1..], also, more);
    }
  }

  /** With distinct keys and names, any two issues that are due have an order:
      together with `IssuesInOrder` there is one list they can come in. */
  lemma {:induction false} OrderIsTotal(env: Env, ty: TypeExpr, root: bool, v: Value, at: Path, code: string,
                                        meta: Meta, bt: Path, also: string, more: Meta)
    requires KeysDistinct(v) && NamesDistinct(ty)
    requires Broken(env, ty, root, v, at, code, meta) && Broken(env, ty, root, v, bt, also, more)
    requires (at, code, meta) != (bt, also, more)
    ensures Before(ty, v, at, code, bt, also) || Before(ty, v, bt, also, at, code)
    decreases ty, 1
  {
    match ty
    case Primitive(primitive) => PrimitiveTotal(env, primitive, v, code, meta, also, more);
    case Enum(_) =>
    case Optional(of) => OrderIsTotal(env, of, root, v, at, code, meta, bt, also, more);
    case List(_, _) =>
      if at != [] && bt != [] {
        ListTotal(env, ty, root, v, at, code, meta, bt, also, more);
      }
    case Dict(_, _) =>
      if at != [] && bt != [] {
        DictTotal(env, ty, root, v, at, code, meta, bt, also, more);
      }
    case Struct(_, _) =>
      if v.Dict? {
        StructTotal(env, ty, root, v, at, code, meta, bt, also, more);
      }
  }
}
