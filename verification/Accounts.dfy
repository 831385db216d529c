/** What a caller gets from a validation, said of the type and the input alone:
    every issue that is due, rendered, once, in order; or the output. */
module Accounts {
  import opened Wrappers
  import opened Values
  import opened Schema
  import opened Paths
  import opened Validation
  import opened Meaning
  import opened Reporting
  import opened IssueOrder

  /** A reported issue: its path is already rendered. */
  datatype ValidationIssue = ValidationIssue(path: string, code: string, meta: Meta)

  datatype ValidationResult = ValidationResult(output: Option<Value>, issues: seq<ValidationIssue>)

  /** An issue with this place, code and meta is due. */
  function Due(env: Env, ty: TypeExpr, v: Value): Issue -> bool {
    (issue: Issue) => Broken(env, ty, true, v, issue.path, issue.code, issue.meta)
  }

  /** Exactly the issues that are due, none before its turn. */
  ghost predicate Lists(issues: seq<Issue>, due: Issue -> bool, before: (Issue, Issue) -> bool) {
    && (forall issue :: issue in issues <==> due(issue))
    && Sorted(issues, before)
  }

  /** Path by path rendered, code and meta untouched. */
  ghost predicate Shown(issues: seq<Issue>, reported: seq<ValidationIssue>) {
    && |reported| == |issues|
    && forall i | 0 <= i < |issues| ::
         && reported[i].path == Render(issues[i].path)
         && reported[i].code == issues[i].code
         && reported[i].meta == issues[i].meta
  }

  /** The report shows all that is due, in order, and, where keys and names are
      distinct, once. */
  ghost predicate Accounted(env: Env, ty: TypeExpr, v: Value, reported: seq<ValidationIssue>) {
    exists issues: seq<Issue> ::
      && Lists(issues, Due(env, ty, v), Order(ty, v, []))
      && (KeysDistinct(v) && NamesDistinct(ty) ==> Once(issues))
      && Shown(issues, reported)
  }

  /** The whole result: its issues account for the input, and its output is what
      the schema makes of it. */
  ghost predicate Means(env: Env, ty: TypeExpr, v: Value, r: ValidationResult) {
    && Accounted(env, ty, v, r.issues)
    && forall out :: r.output == Some(out) <==> Yields(env, ty, true, v, out)
  }

  lemma {:induction false} ShownExactly(issues: seq<Issue>, due: Issue -> bool, before: (Issue, Issue) -> bool,
                                        reported: seq<ValidationIssue>, text: string, code: string, meta: Meta)
    requires Lists(issues, due, before) && Shown(issues, reported)
    ensures ValidationIssue(text, code, meta) in reported
       <==> exists at :: text == Render(at) && due(Issue(at, code, meta))
  {
    if ValidationIssue(text, code, meta) in reported {
      var i :| 0 <= i < |reported| && reported[i] == ValidationIssue(text, code, meta);
      assert issues[i] in issues && issues[i] == Issue(issues[i].path, code, meta);
    }
    if at :| text == Render(at) && due(Issue(at, code, meta)) {
      assert Issue(at, code, meta) in issues;
      var i :| 0 <= i < |issues| && issues[i] == Issue(at, code, meta);
      assert reported[i] == ValidationIssue(text, code, meta);
    }
  }

  /** An issue is reported exactly if it is due at a place with that rendering. */
  lemma {:induction false} ReportedExactly(env: Env, ty: TypeExpr, v: Value, reported: seq<ValidationIssue>,
                                           text: string, code: string, meta: Meta)
    requires Accounted(env, ty, v, reported)
    ensures ValidationIssue(text, code, meta) in reported
       <==> exists at :: text == Render(at) && Due(env, ty, v)(Issue(at, code, meta))
  {
    var issues: seq<Issue> :|
      && Lists(issues, Due(env, ty, v), Order(ty, v, []))
      && (KeysDistinct(v) && NamesDistinct(ty) ==> Once(issues))
      && Shown(issues, reported);
    ShownExactly(issues, Due(env, ty, v), Order(ty, v, []), reported, text, code, meta);
  }

  /** No key in the value could be mistaken for path punctuation. */
  predicate PlainKeys(v: Value) {
    match v
    case List(items) => forall i | 0 <= i < |items| :: PlainKeys(items[i])
    case Dict(entries) =>
      forall i | 0 <= i < |entries| :: PlainKey(entries[i].key) && PlainKeys(entries[i].value)
    case _ => true
  }

  predicate PlainNames(ty: TypeExpr) {
    match ty
    case Optional(of) => PlainNames(of)
    case List(of, _) => PlainNames(of)
    case Dict(value, _) => PlainNames(value)
    case Struct(fields, _) => forall i | 0 <= i < |fields| :: PlainKey(fields[i].name) && PlainNames(fields[i].ty)
    case _ => true
  }

  lemma {:induction false} PlainStep(step: Segment, rest: Path)
    requires PlainPath(rest) && (step.Key? ==> PlainKey(step.name))
    ensures PlainPath([step] + rest)
  {
    forall i | 0 <= i < |rest| + 1 && ([step] + rest)[i].Key? ensures PlainKey(([step] + rest)[i].name) {
      if i > 0 {
        assert ([step] + rest)[i] == rest[i - 1];
      }
    }
  }

  lemma {:induction false} FieldPlaceIsPlain(env: Env, field: FieldExpr, entries: seq<Entry>, at: Path, code: string,
                                             meta: Meta)
    requires PlainKey(field.name) && PlainNames(field.ty)
    requires forall i | 0 <= i < |entries| :: PlainKeys(entries[i].value)
    requires FieldBroken(env, field, entries, at, code, meta)
    ensures PlainPath(at)
    decreases field
  {
    if DictFind(entries, field.name).Some? {
      var k := DictFindIndex(entries, field.name);
      PlaceIsPlain(env, field.ty, false, entries[k].value, at[1..], code, meta);
    }
    assert at == [at[0]] + at[1..];
    PlainStep(at[0], at[1..]);
  }

  /** Where keys and names are plain, so are the places of issues. */
  lemma {:induction false} PlaceIsPlain(env: Env, ty: TypeExpr, root: bool, v: Value, at: Path, code: string, meta: Meta)
    requires PlainKeys(v) && PlainNames(ty) && Broken(env, ty, root, v, at, code, meta)
    ensures PlainPath(at)
    decreases ty
  {
    if at != [] {
      match ty
      case Primitive(_) =>
      case Enum(_) =>
      case Optional(of) => PlaceIsPlain(env, of, root, v, at, code, meta);
      case List(of, _) =>
        var i :| 0 <= i < |v.items| && at[0] == Index(i) && Broken(env, of, false, v.items[i], at[1..], code, meta);
        PlaceIsPlain(env, of, false, v.items[i], at[1..], code, meta);
        assert at == [at[0]] + at[1..];
        PlainStep(at[0], at[1..]);
      case Dict(of, _) =>
        var i :| 0 <= i < |v.entries| && at[0] == Key(v.entries[i].key)
          && Broken(env, of, false, v.entries[i].value, at[1..], code, meta);
        PlaceIsPlain(env, of, false, v.entries[i].value, at[1..], code, meta);
        assert at == [at[0]] + at[1..];
        PlainStep(at[0], at[1..]);
      case Struct(fields, extra) =>
        if i :| 0 <= i < |fields| && FieldBroken(env, fields[i], v.entries, at, code, meta) {
          FieldPlaceIsPlain(env, fields[i], v.entries, at, code, meta);
        }
    }
  }

  lemma {:induction false} ShownOnce(issues: seq<Issue>, reported: seq<ValidationIssue>)
    requires Once(issues) && Shown(issues, reported) && forall i | 0 <= i < |issues| :: PlainPath(issues[i].path)
    ensures forall i, j | 0 <= i < j < |reported| :: reported[i] != reported[j]
  {
    forall i, j | 0 <= i < j < |reported| ensures reported[i] != reported[j] {
      if Render(issues[i].path) == Render(issues[j].path) {
        RenderInjective(issues[i].path, issues[j].path);
        assert issues[i] != issues[j];
      }
    }
  }

  lemma {:induction false} DueIsPlain(env: Env, ty: TypeExpr, v: Value, issue: Issue)
    requires PlainKeys(v) && PlainNames(ty) && Due(env, ty, v)(issue)
    ensures PlainPath(issue.path)
  {
    PlaceIsPlain(env, ty, true, v, issue.path, issue.code, issue.meta);
  }

  /** With distinct and plain keys and names, nothing is reported twice. */
  lemma {:induction false} ReportedOnce(env: Env, ty: TypeExpr, v: Value, reported: seq<ValidationIssue>)
    requires Accounted(env, ty, v, reported)
    requires KeysDistinct(v) && NamesDistinct(ty) && PlainKeys(v) && PlainNames(ty)
    ensures forall i, j | 0 <= i < j < |reported| :: reported[i] != reported[j]
  {
    var issues: seq<Issue> :|
      && Lists(issues, Due(env, ty, v), Order(ty, v, []))
      && (KeysDistinct(v) && NamesDistinct(ty) ==> Once(issues))
      && Shown(issues, reported);
    forall i | 0 <= i < |issues| ensures PlainPath(issues[i].path) {
      assert issues[i] in issues;
      DueIsPlain(env, ty, v, issues[i]);
    }
    ShownOnce(issues, reported);
  }

  lemma {:induction false} RecordedIsDue(env: Env, ty: TypeExpr, v: Value, issue: Issue)
    ensures issue in Validate(env, ty, [], v).issues <==> Due(env, ty, v)(issue)
  {
    IssuesAreFaults(env, ty, [], v, issue);
    assert issue.path[0..] == issue.path;
  }

  /** What a run records is complete before it is rendered. */
  lemma {:induction false} RunIsComplete(env: Env, ty: TypeExpr, v: Value)
    ensures Lists(Run(env, ty, v).issues, Due(env, ty, v), Order(ty, v, []))
    ensures KeysDistinct(v) && NamesDistinct(ty) ==> Once(Run(env, ty, v).issues)
  {
    forall issue ensures issue in Validate(env, ty, [], v).issues <==> Due(env, ty, v)(issue) {
      RecordedIsDue(env, ty, v, issue);
    }
    IssuesInOrder(env, ty, [], v);
    if KeysDistinct(v) && NamesDistinct(ty) {
      NoIssueTwice(env, ty, [], v);
    }
  }

  /** A run, shown, is a result that means what the schema says. */
  lemma {:induction false} RunMeansResult(env: Env, ty: TypeExpr, v: Value, r: ValidationResult)
    requires r.output == Run(env, ty, v).value && Shown(Run(env, ty, v).issues, r.issues)
    ensures Means(env, ty, v, r)
  {
    RunIsComplete(env, ty, v);
    assert Accounted(env, ty, v, r.issues);
    forall out ensures r.output == Some(out) <==> Yields(env, ty, true, v, out) {
      RunMeans(env, ty, v, out);
    }
  }
}
