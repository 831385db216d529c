/** The full circle: validate, materialise, convert back, validate again. */
module RoundTrip {
  import opened Wrappers
  import opened Values
  import opened Schema
  import opened Paths
  import opened Validation
  import opened Conformance
  import opened NormalForms
  import opened Ruby
  import opened RubyInput
  import opened InputFaults
  import opened Materialize

  /** No symbol, and no key or present field name at any depth, holds a NUL. */
  predicate Nameable(v: Value) {
    match v
    case Symbol(name) => NulFree(name)
    case List(items) => forall i | 0 <= i < |items| :: Nameable(items[i])
    case Dict(entries) => forall i | 0 <= i < |entries| :: NulFree(entries[i].key) && Nameable(entries[i].value)
    case Struct(names, fields, extras) =>
      && (forall i | 0 <= i < |names| && i < |fields| && fields[i].Some? ::
            NulFree(names[i]) && Nameable(fields[i].value))
      && forall i | 0 <= i < |extras| :: NulFree(extras[i].key) && Nameable(extras[i].value)
    case _ => true
  }

  /** Materialisation fails only over a NUL in a name. */
  lemma {:induction false} MaterializeIsExact(v: Value)
    ensures ToRuby(v).Success? <==> Nameable(v)
    decreases v, 1
  {
    match v
    case List(items) =>
      forall i | 0 <= i < |items| ensures Items(items)[i].Success? <==> Nameable(items[i]) {
        MaterializeIsExact(items[i]);
      }
      GatherExact(Items(items), |items|);
    case Dict(entries) =>
      forall i | 0 <= i < |entries|
        ensures DictPuts(entries)[i].Success? <==> NulFree(entries[i].key) && Nameable(entries[i].value)
      {
        assert DictPuts(entries)[i] == DictPut(entries[i]);
        MaterializeIsExact(entries[i].value);
      }
      GatherExact(DictPuts(entries), |entries|);
    case Struct(_, _, _) => StructIsExact(v);
    case _ =>
  }

  lemma {:induction false} StructIsExact(v: Value)
    requires v.Struct?
    ensures ToRuby(v).Success? <==> Nameable(v)
    decreases v, 0
  {
    var fs, es := FieldPuts(v.names, v.fields), ExtraPuts(v.extras);
    forall i | 0 <= i < |fs|
      ensures fs[i].Success? <==> (v.fields[i].Some? ==> NulFree(v.names[i]) && Nameable(v.fields[i].value))
    {
      assert fs[i] == FieldPut(v.names[i], v.fields[i]);
      if v.fields[i].Some? {
        MaterializeIsExact(v.fields[i].value);
      }
    }
    forall i | 0 <= i < |es|
      ensures es[i].Success? <==> NulFree(v.extras[i].key) && Nameable(v.extras[i].value)
    {
      assert es[i] == ExtraPut(v.extras[i]);
      MaterializeIsExact(v.extras[i].value);
    }
    GatherExact(fs, |fs|);
    GatherExact(es, |es|);
  }

  /** These stores are read back as these entries, wherever they stand. */
  ghost predicate ReadAs(put: RPair, e: Entry) {
    && KeyText(put.key) == Some(e.key)
    && forall path :: Convert(put.value, path) == Success(e.value)
  }

  ghost predicate AllReadAs(puts: seq<RPair>, entries: seq<Entry>) {
    |puts| == |entries| && forall i | 0 <= i < |puts| :: ReadAs(puts[i], entries[i])
  }

  lemma HashReads(puts: seq<RPair>, entries: seq<Entry>, path: Path)
    requires PairKeysDistinct(puts) && AllReadAs(puts, entries)
    ensures Convert(HashOf(puts), path) == Success(Value.Dict(entries))
  {
    PutAllDistinct(puts, |puts|);
    assert puts[..|puts|] == puts;
    var results := PairResults(puts, path);
    forall i | 0 <= i < |puts| ensures results[i] == Success(entries[i]) {
      assert results[i] == PairResult(puts[i], path);
      assert ReadAs(puts[i], entries[i]);
    }
    GatherAll(results, entries, |entries|);
    assert entries[..|entries|] == entries;
  }

  lemma {:induction false} EntriesRead(entries: seq<Entry>)
    requires Gather(DictPuts(entries), |entries|).Success?
    requires Distinct(Keys(entries)) && forall i | 0 <= i < |entries| :: KeysDistinct(entries[i].value)
    ensures AllReadAs(Gather(DictPuts(entries), |entries|).value, LowerEntries(entries))
    ensures PairKeysDistinct(Gather(DictPuts(entries), |entries|).value)
    decreases entries
  {
    GatherSuccess(DictPuts(entries), |entries|);
    var puts := Gather(DictPuts(entries), |entries|).value;
    forall i | 0 <= i < |entries|
      ensures ReadAs(puts[i], LowerEntries(entries)[i]) && puts[i].key == RSymbol(Keys(entries)[i])
    {
      assert DictPuts(entries)[i] == DictPut(entries[i]);
      MaterializedReadsBack(entries[i].value);
    }
  }

  lemma {:induction false} ExtrasRead(extras: seq<Entry>)
    requires Gather(ExtraPuts(extras), |extras|).Success?
    requires Distinct(Keys(extras)) && forall i | 0 <= i < |extras| :: KeysDistinct(extras[i].value)
    ensures var puts := Gather(ExtraPuts(extras), |extras|).value;
            && AllReadAs(puts, LowerEntries(extras)) && PairKeysDistinct(puts)
            && forall i | 0 <= i < |puts| :: puts[i].key.RString?
    decreases extras
  {
    GatherSuccess(ExtraPuts(extras), |extras|);
    var puts := Gather(ExtraPuts(extras), |extras|).value;
    forall i | 0 <= i < |extras|
      ensures ReadAs(puts[i], LowerEntries(extras)[i]) && puts[i].key == RString(Keys(extras)[i])
    {
      assert ExtraPuts(extras)[i] == ExtraPut(extras[i]);
      MaterializedReadsBack(extras[i].value);
    }
  }

  /** The stores for present fields are read back as those fields' entries. */
  lemma {:induction false} FieldsRead(out: Value, puts: seq<Option<RPair>>, n: nat)
    requires out.Struct? && KeysDistinct(out)
    requires |puts| == Shorter(|out.names|, |out.fields|) && n <= |puts|
    requires forall i | 0 <= i < |puts| :: FieldPut(out.names[i], out.fields[i]) == Success(puts[i])
    ensures AllReadAs(Somes(puts, n), Present(out.names, LowerFields(out.fields), n))
    ensures PairKeysDistinct(Somes(puts, n))
    ensures forall k | 0 <= k < |Somes(puts, n)| ::
              Somes(puts, n)[k].key.RSymbol? && Somes(puts, n)[k].key.name in out.names[..n]
    decreases out, 0, n
  {
    if n > 0 {
      FieldsRead(out, puts, n - 1);
      var i := n - 1;
      var names, fields := out.names, out.fields;
      assert FieldPut(names[i], fields[i]) == Success(puts[i]);
      assert names[..n] == names[..i] + [names[i]];
      assert names[i] !in names[..i];
      if fields[i].Some? {
        MaterializedReadsBack(fields[i].value);
        assert ReadAs(puts[i].value, Entry(names[i], Lower(fields[i].value)));
      }
    }
  }

  lemma {:induction false} StructReadsBack(out: Value, path: Path)
    requires out.Struct? && ToRuby(out).Success? && KeysDistinct(out)
    ensures Convert(ToRuby(out).value, path) == Success(Lower(out))
    decreases out, 0, |out.fields| + 1
  {
    var fs, es := FieldPuts(out.names, out.fields), ExtraPuts(out.extras);
    var n := Shorter(|out.names|, |out.fields|);
    GatherSuccess(fs, n);
    var slots := Gather(fs, n).value;
    forall i | 0 <= i < n ensures FieldPut(out.names[i], out.fields[i]) == Success(slots[i]) {
      assert fs[i] == FieldPut(out.names[i], out.fields[i]);
    }
    FieldsRead(out, slots, n);
    ExtrasRead(out.extras);
    var declared, extras := Somes(slots, n), Gather(es, |es|).value;
    HashReads(declared + extras, Present(out.names, LowerFields(out.fields), n) + LowerEntries(out.extras), path);
  }

  /** Converting a materialised output back gives the output, lowered. */
  lemma {:induction false} MaterializedReadsBack(out: Value)
    requires ToRuby(out).Success? && KeysDistinct(out)
    ensures forall path :: Convert(ToRuby(out).value, path) == Success(Lower(out))
    decreases out, 2
  {
    forall path ensures Convert(ToRuby(out).value, path) == Success(Lower(out)) {
      ReadsBackAt(out, path);
    }
  }

  lemma {:induction false} ReadsBackAt(out: Value, path: Path)
    requires ToRuby(out).Success? && KeysDistinct(out)
    ensures Convert(ToRuby(out).value, path) == Success(Lower(out))
    decreases out, 1
  {
    match out
    case List(items) =>
      GatherSuccess(Items(items), |items|);
      var xs := ToRuby(out).value.items;
      var results := ItemResults(xs, path);
      forall i | 0 <= i < |items| ensures results[i] == Success(Lower(items[i])) {
        assert results[i] == ItemResult(xs[i], path, i) && Items(items)[i] == ToRuby(items[i]);
        ReadsBackAt(items[i], path + [Index(i)]);
      }
      GatherAll(results, Lower(out).items, |items|);
      assert Lower(out).items[..|items|] == Lower(out).items;
    case Dict(entries) =>
      EntriesRead(entries);
      HashReads(Gather(DictPuts(entries), |entries|).value, LowerEntries(entries), path);
    case Struct(_, _, _) => StructReadsBack(out, path);
    case _ =>
  }

  /** The pair holds this entry's value, under a key of the given kind. */
  predicate HoldsEntry(pair: RPair, key: RValue, v: Value) {
    pair.key == key && ToRuby(v) == Success(pair.value)
  }

  lemma PutsListed(puts: seq<RPair>)
    requires PairKeysDistinct(puts)
    ensures HashOf(puts) == RHash(puts)
  {
    PutAllDistinct(puts, |puts|);
    assert puts[..|puts|] == puts;
  }

  /** A dict becomes a hash of the same entries in order, keyed by symbols. */
  lemma DictBecomesHash(entries: seq<Entry>)
    requires ToRuby(Value.Dict(entries)).Success? && Distinct(Keys(entries))
    ensures var hash := ToRuby(Value.Dict(entries)).value;
            && hash.RHash? && |hash.pairs| == |entries|
            && forall i | 0 <= i < |entries| ::
                 HoldsEntry(hash.pairs[i], RSymbol(entries[i].key), entries[i].value)
  {
    var puts := Gather(DictPuts(entries), |entries|).value;
    GatherSuccess(DictPuts(entries), |entries|);
    forall i | 0 <= i < |entries|
      ensures HoldsEntry(puts[i], RSymbol(Keys(entries)[i]), entries[i].value)
    {
      assert DictPuts(entries)[i] == DictPut(entries[i]);
    }
    PutsListed(puts);
  }

  lemma {:induction false} SlotsHold(names: seq<string>, fields: seq<Option<Value>>, slots: seq<Option<RPair>>, n: nat)
    requires |slots| == Shorter(|names|, |fields|) && n <= |slots|
    requires forall i | 0 <= i < |slots| :: FieldPut(names[i], fields[i]) == Success(slots[i])
    ensures var puts, present := Somes(slots, n), Present(names, fields, n);
            && |puts| == |present|
            && forall i | 0 <= i < |puts| :: HoldsEntry(puts[i], RSymbol(present[i].key), present[i].value)
  {
    if n > 0 {
      SlotsHold(names, fields, slots, n - 1);
      assert FieldPut(names[n - 1], fields[n - 1]) == Success(slots[n - 1]);
    }
  }

  lemma ExtrasHold(extras: seq<Entry>)
    requires Gather(ExtraPuts(extras), |extras|).Success? && Distinct(Keys(extras))
    ensures var puts := Gather(ExtraPuts(extras), |extras|).value;
            && |puts| == |extras| && PairKeysDistinct(puts)
            && forall i | 0 <= i < |puts| :: HoldsEntry(puts[i], RString(extras[i].key), extras[i].value)
  {
    GatherSuccess(ExtraPuts(extras), |extras|);
    var puts := Gather(ExtraPuts(extras), |extras|).value;
    forall i | 0 <= i < |extras| ensures HoldsEntry(puts[i], RString(Keys(extras)[i]), extras[i].value) {
      assert ExtraPuts(extras)[i] == ExtraPut(extras[i]);
    }
  }

  /** A struct becomes a hash of its present fields in order, keyed by symbols,
      followed by its extras, keyed by strings. */
  lemma StructBecomesHash(out: Value) returns (declared: seq<RPair>, extras: seq<RPair>)
    requires out.Struct? && ToRuby(out).Success? && KeysDistinct(out)
    ensures ToRuby(out).value == RHash(declared + extras)
    ensures var present := Present(out.names, out.fields, Shorter(|out.names|, |out.fields|));
            && |declared| == |present|
            && forall i | 0 <= i < |present| :: HoldsEntry(declared[i], RSymbol(present[i].key), present[i].value)
    ensures |extras| == |out.extras| && forall i | 0 <= i < |extras| ::
              HoldsEntry(extras[i], RString(out.extras[i].key), out.extras[i].value)
  {
    var fs := FieldPuts(out.names, out.fields);
    GatherSuccess(fs, |fs|);
    var slots := Gather(fs, |fs|).value;
    forall i | 0 <= i < |fs| ensures FieldPut(out.names[i], out.fields[i]) == Success(slots[i]) {
      assert fs[i] == FieldPut(out.names[i], out.fields[i]);
    }
    SlotsHold(out.names, out.fields, slots, |fs|);
    FieldsRead(out, slots, |fs|);
    ExtrasHold(out.extras);
    declared, extras := Somes(slots, |fs|), Gather(ExtraPuts(out.extras), |out.extras|).value;
    PutsListed(declared + extras);
  }

  /** From Ruby and back. Input whose hashes do not confuse string and symbol
      keys, and which validates in either mode, yields an output such that
      materialising it succeeds unless a name holds a NUL, and the Ruby value
      so made, fed back in, passes strict validation with the same output. */
  lemma FullCircle(env: Env, ty: TypeExpr, input: RValue)
    requires KeyTextsDistinct(input) && NamesDistinct(ty) && Convert(input, []).Success?
    requires Run(env, ty, Convert(input, []).value).issues == []
    ensures var run := Run(env, ty, Convert(input, []).value);
            && run.value.Some?
            && (ToRuby(run.value.value).Success? <==> Nameable(run.value.value))
            && (ToRuby(run.value.value).Success? ==>
                  var again := Convert(ToRuby(run.value.value).value, []);
                  again.Success? && Run(env.(strict := true), ty, again.value) == run)
  {
    var v := Convert(input, []).value;
    ConvertedShape(input, []);
    RevalidateStrictly(env, ty, [], v);
    OutputsStayDistinct(env, ty, [], v);
    var out := Validate(env, ty, [], v).value.value;
    MaterializeIsExact(out);
    if ToRuby(out).Success? {
      MaterializedReadsBack(out);
      assert Convert(ToRuby(out).value, []) == Success(Lower(out));
    }
  }
}
