/**
 * encoding/query.go: QueryCodec decodes the request's query string into the
 * fields tagged `query`, the only variant that fills slice fields from
 * repeated keys, and reports failures as QueryTypeError.
 */
module EncodingQuery {
  import opened Wrappers
  import opened Errors
  import opened Strconv
  import opened Reflection
  import opened Coercion
  import opened TagWalker

  /** The QueryCodec's walk: tag `query`, QueryTypeErrors, slices filled from repeated keys, unsettable fields skipped. */
  function QueryConfig(pf: FloatParser): (cfg: Config)
    ensures cfg.tagName == "query" && cfg.family == QueryTypeFamily && cfg.slices && cfg.checkSettable
    ensures cfg.floatWord == "floating point" && cfg.parseFloat == pf
  {
    Config("query", QueryTypeFamily, "floating point", true, true, pf)
  }

  /** The parsed query string as a source; its count is the number of distinct keys. */
  function QuerySource(query: map<string, seq<string>>): (src: Source)
    ensures src.count == |query|
    ensures forall key :: key in query ==> Values(src, key) == query[key] && First(src, key) == (if query[key] == [] then "" else query[key][0])
    ensures forall key :: key !in query ==> Values(src, key) == [] && First(src, key) == ""
  {
    Source(|query|, query)
  }

  /**
   * QueryCodec.set: the new value of one field (or slice element) from one
   * query string. Integer and float parse failures and unsupported kinds are
   * QueryTypeErrors from "string"; strings and booleans always succeed; a
   * success is the shared coercion's value.
   */
  function Set(t: Type, qs: string, pf: FloatParser): (r: Result<Value, Error>)
    ensures r.Failure? ==> r.error.QueryTypeError? && r.error.fromType == "string"
    ensures t.kind.IntKind? ==> (r.Failure? <==> ParseInt(qs).Failure?)
    ensures t.kind.IntKind? && r.Failure? ==> r.error.toType == "integer"
    ensures t.kind.FloatKind? ==> (r.Failure? <==> pf(qs).Failure?)
    ensures t.kind.FloatKind? && r.Failure? ==> r.error.toType == "floating point"
    ensures t.kind.StringKind? || t.kind.BoolKind? ==> r.Success?
    ensures t.kind.SliceKind? || t.kind.OtherKind? ==> r == Failure(QueryTypeError("string", t.name))
    ensures r.Success? ==> CoerceScalar(t, qs, pf) == Coerced(r.value)
  {
    FieldCoercion(QueryConfig(pf), t, qs)
  }

  /** QueryCodec.Decode over the parsed query string; the candidate's fields are updated in place. */
  method Decode(query: map<string, seq<string>>, fields: seq<Field>, candidate: array<Value>, pf: FloatParser)
    returns (err: Option<Error>)
    requires candidate.Length == |fields|
    modifies candidate
    ensures |query| == 0 ==> err == None && candidate[..] == old(candidate[..])
    ensures Decoded(candidate[..], err) == Outcome(QueryConfig(pf), QuerySource(query), fields, old(candidate[..]))
  {
    err := TagWalker.Decode(QueryConfig(pf), QuerySource(query), fields, candidate);
  }

  /** The conditions under which a slice field is converted at all. */
  predicate SliceFieldApplies(query: map<string, seq<string>>, f: Field)
  {
    var tag := TagOf(f, "query");
    tag != "" && tag in query && |query[tag]| > 0 && query[tag][0] != "" &&
    f.settable && f.typ.kind.SliceKind?
  }

  /**
   * A tagged, settable slice field whose first value is non-empty receives a
   * fresh slice with one element per repeated value, element k set from value
   * k, exactly when every value converts; otherwise the field is not written
   * and the walk fails.
   */
  lemma SliceFieldDecoded(query: map<string, seq<string>>, f: Field, pf: FloatParser)
    requires SliceFieldApplies(query, f)
    ensures var entries := query[TagOf(f, "query")];
            var st := Step(QueryConfig(pf), QuerySource(query), f);
            && (st.Write? <==> forall k :: 0 <= k < |entries| ==> Set(f.typ.kind.elem, entries[k], pf).Success?)
            && (st.Write? ==>
                  st.v.SliceV? && |st.v.elems| == |entries| &&
                  forall k :: 0 <= k < |entries| ==> st.v.elems[k] == Set(f.typ.kind.elem, entries[k], pf).value)
            && (!st.Write? ==> st.Fail?)
  {
    CoerceAllSucceeds(QueryConfig(pf), f.typ.kind.elem, query[TagOf(f, "query")]);
  }

  /** The error of a slice field is that of its first value that does not convert. */
  lemma SliceFieldFirstError(query: map<string, seq<string>>, f: Field, pf: FloatParser, a: nat)
    requires SliceFieldApplies(query, f)
    requires a < |query[TagOf(f, "query")]|
    requires forall k :: 0 <= k < a ==> Set(f.typ.kind.elem, query[TagOf(f, "query")][k], pf).Success?
    requires Set(f.typ.kind.elem, query[TagOf(f, "query")][a], pf).Failure?
    ensures Step(QueryConfig(pf), QuerySource(query), f) ==
              Fail(Set(f.typ.kind.elem, query[TagOf(f, "query")][a], pf).error)
  {
    CoerceAllFirstFailure(QueryConfig(pf), f.typ.kind.elem, query[TagOf(f, "query")], a);
  }

  const IntType := Type("int", IntKind(W64))

  function Tagged(name: string, t: Type, tag: string): Field
  {
    Field(name, t, map["query" := tag], true)
  }

  /** The numerals of the example parse to their values. */
  lemma ExampleNumerals()
    ensures ParseInt("100") == Success(100)
    ensures ParseInt("1") == Success(1)
    ensures ParseInt("2") == Success(2)
  {
    ParseFormatRoundTrip(100);
    ParseFormatRoundTrip(1);
    ParseFormatRoundTrip(2);
    assert FormatInt(100) == "100";
  }

  const ExampleFields := [
    Tagged("SortBy", Type("string", StringKind), "sort-by"),
    Tagged("Limit", IntType, "limit"),
    Tagged("ShowInactive", Type("bool", BoolKind), "show-inactive"),
    Tagged("Ids", Type("", SliceKind(IntType)), "id")]

  const ExampleQuery := map["sort-by" := ["name"], "limit" := ["100"], "show-inactive" := ["true"], "id" := ["1", "2"]]

  lemma ExampleSortBy(pf: FloatParser)
    ensures Step(QueryConfig(pf), QuerySource(ExampleQuery), ExampleFields[0]) == Write(StrV("name"))
  {
    var f := ExampleFields[0];
    var src := QuerySource(ExampleQuery);
    assert TagOf(f, "query") == "sort-by";
    assert Values(src, "sort-by") == ["name"];
    StepWritesScalar(QueryConfig(pf), src, f, StrV("name"));
  }

  lemma LimitCoerces(pf: FloatParser)
    ensures CoerceScalar(IntType, "100", pf) == Coerced(IntV(100))
  {
    ExampleNumerals();
    assert Truncate(W64, 100) == 100;
  }

  lemma ExampleLimit(pf: FloatParser)
    ensures Step(QueryConfig(pf), QuerySource(ExampleQuery), ExampleFields[1]) == Write(IntV(100))
  {
    var f := ExampleFields[1];
    var src := QuerySource(ExampleQuery);
    assert TagOf(f, "query") == "limit";
    assert Values(src, "limit") == ["100"];
    LimitCoerces(pf);
    StepWritesScalar(QueryConfig(pf), src, f, IntV(100));
  }

  lemma ExampleShowInactive(pf: FloatParser)
    ensures Step(QueryConfig(pf), QuerySource(ExampleQuery), ExampleFields[2]) == Write(BoolV(true))
  {
    var f := ExampleFields[2];
    var src := QuerySource(ExampleQuery);
    assert TagOf(f, "query") == "show-inactive";
    assert Values(src, "show-inactive") == ["true"];
    assert IsTrue("true");
    assert CoerceScalar(f.typ, "true", pf) == Coerced(BoolV(true));
    StepWritesScalar(QueryConfig(pf), src, f, BoolV(true));
  }

  lemma ExampleIdEntries(pf: FloatParser)
    ensures CoerceAll(QueryConfig(pf), IntType, ["1", "2"]) == Success([IntV(1), IntV(2)])
  {
    var cfg := QueryConfig(pf);
    ExampleNumerals();
    assert FieldCoercion(cfg, IntType, "1") == Success(IntV(1));
    assert FieldCoercion(cfg, IntType, "2") == Success(IntV(2));
    assert ["2"][1..] == [] && ["2"][0] == "2";
    assert ["1", "2"][1..] == ["2"] && ["1", "2"][0] == "1";
    assert CoerceAll(cfg, IntType, []) == Success([]);
    assert [IntV(2)] + [] == [IntV(2)];
    assert [IntV(1)] + [IntV(2)] == [IntV(1), IntV(2)];
    assert CoerceAll(cfg, IntType, ["2"]) == Success([IntV(2)]);
  }

  lemma ExampleIds(pf: FloatParser)
    ensures Step(QueryConfig(pf), QuerySource(ExampleQuery), ExampleFields[3]) == Write(SliceV([IntV(1), IntV(2)]))
  {
    var f := ExampleFields[3];
    var src := QuerySource(ExampleQuery);
    assert TagOf(f, "query") == "id";
    assert Values(src, "id") == ["1", "2"];
    ExampleIdEntries(pf);
    StepWritesSlice(QueryConfig(pf), src, f, [IntV(1), IntV(2)]);
  }

  /**
   * `?sort-by=name&limit=100&show-inactive=true&id=1&id=2` decoded into
   * {SortBy string, Limit int, ShowInactive bool, Ids []int} gives "name",
   * 100, true and [1, 2], and no error.
   */
  lemma ListQueryExample(pf: FloatParser)
    ensures Outcome(QueryConfig(pf), QuerySource(ExampleQuery), ExampleFields,
                    [StrV(""), IntV(0), BoolV(false), SliceV([])])
              == Decoded([StrV("name"), IntV(100), BoolV(true), SliceV([IntV(1), IntV(2)])], None)
  {
    var cfg, src, fields := QueryConfig(pf), QuerySource(ExampleQuery), ExampleFields;
    var ws := [StrV("name"), IntV(100), BoolV(true), SliceV([IntV(1), IntV(2)])];
    forall j | 0 <= j < |fields|
      ensures Step(cfg, src, fields[j]) == Write(ws[j])
    {
      if j == 0 {
        ExampleSortBy(pf);
      } else if j == 1 {
        ExampleLimit(pf);
      } else if j == 2 {
        ExampleShowInactive(pf);
      } else {
        ExampleIds(pf);
      }
    }
    WalkFromAllWrite(cfg, src, fields, [StrV(""), IntV(0), BoolV(false), SliceV([])], ws, 0);
    assert |ExampleQuery| == 4;
  }
}
