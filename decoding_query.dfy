/**
 * decoding/query.go: QueryDecoder decodes the request's query string into the
 * fields tagged `query`, reporting failures as RequestDecodeError. Unlike the
 * other variants it does not ask whether a field can be set before writing
 * it, and it does not support slice fields.
 */
module DecodingQuery {
  import opened Wrappers
  import opened Errors
  import opened Reflection
  import opened Coercion
  import opened TagWalker
  import EncodingQuery

  function RequestConfig(pf: FloatParser): (cfg: Config)
    ensures cfg.tagName == "query" && !cfg.checkSettable && !cfg.slices
  {
    Config("query", RequestDecodeFamily, "floating point number", false, false, pf)
  }

  /** QueryDecoder.Decode over the parsed query string; the candidate's fields are updated in place. */
  method Decode(query: map<string, seq<string>>, fields: seq<Field>, candidate: array<Value>, pf: FloatParser)
    returns (err: Option<Error>)
    requires candidate.Length == |fields|
    modifies candidate
    ensures |query| == 0 ==> err == None && candidate[..] == old(candidate[..])
    ensures Decoded(candidate[..], err) ==
              Outcome(RequestConfig(pf), EncodingQuery.QuerySource(query), fields, old(candidate[..]))
  {
    err := TagWalker.Decode(RequestConfig(pf), EncodingQuery.QuerySource(query), fields, candidate);
  }

  /**
   * Without the settability check, an unexported tagged field whose first
   * query value is non-empty and converts is written anyway, which reflect
   * refuses: the walk aborts there, and an unexported field whose value does
   * not convert reports the conversion error first.
   */
  lemma UnexportedFieldPanics(query: map<string, seq<string>>, f: Field, pf: FloatParser)
    requires TagOf(f, "query") != "" && TagOf(f, "query") in query
    requires |query[TagOf(f, "query")]| > 0 && query[TagOf(f, "query")][0] != ""
    requires !f.settable
    ensures var st := Step(RequestConfig(pf), EncodingQuery.QuerySource(query), f);
            var qs := query[TagOf(f, "query")][0];
            && (CoerceScalar(f.typ, qs, pf).Coerced? ==> st == Fail(ReflectPanic(f.name)))
            && (!CoerceScalar(f.typ, qs, pf).Coerced? ==> st.Fail? && st.error.RequestDecodeError?)
  {
  }

  /**
   * On exported fields without slices the decoder does what the encoding
   * package's QueryCodec does: the same values, the same failures, reported as
   * RequestDecodeError, naming a float target "floating point number" where
   * the codec says "floating point".
   */
  lemma AgreesWithQueryCodec(query: map<string, seq<string>>, fields: seq<Field>, vals: seq<Value>, pf: FloatParser)
    requires |vals| == |fields|
    requires forall j :: 0 <= j < |fields| ==> fields[j].settable && !fields[j].typ.kind.SliceKind?
    ensures var src := EncodingQuery.QuerySource(query);
            var q := Outcome(EncodingQuery.QueryConfig(pf), src, fields, vals);
            var d := Outcome(RequestConfig(pf), src, fields, vals);
            && d.values == q.values
            && d.err.None? == q.err.None?
            && (d.err.Some? ==> d.err.value.RequestDecodeError? && q.err.value.QueryTypeError? &&
                                d.err.value.fromType == q.err.value.fromType &&
                                (d.err.value.toType == q.err.value.toType ||
                                 (d.err.value.toType == "floating point number" && q.err.value.toType == "floating point")))
  {
    var src := EncodingQuery.QuerySource(query);
    var qc := EncodingQuery.QueryConfig(pf);
    var mid := qc.(slices := false, checkSettable := false, floatWord := "floating point number");
    // Dropping slices and the settability check changes nothing on these fields.
    SameOnExportedScalars(qc, mid, src, fields, vals, 0);
    OutcomeRebrand(mid, RequestDecodeFamily, src, fields, vals);
    if src.count != 0 {
      CheckedWalkNeverPanics(qc, src, fields, vals, 0);
    }
  }

  /**
   * Two query variants that differ in slices, settability checking and the
   * float word walk exported non-slice fields alike, up to that word.
   */
  lemma {:induction false} SameOnExportedScalars(c1: Config, c2: Config, src: Source, fields: seq<Field>, vals: seq<Value>, i: nat)
    requires c1.tagName == c2.tagName && c1.family == c2.family && c1.parseFloat == c2.parseFloat
    requires |vals| == |fields| && i <= |fields|
    requires forall j :: 0 <= j < |fields| ==> fields[j].settable && !fields[j].typ.kind.SliceKind?
    ensures var d1, d2 := WalkFrom(c1, src, fields, vals, i), WalkFrom(c2, src, fields, vals, i);
            && d1.values == d2.values
            && d1.err.None? == d2.err.None?
            && (d1.err.Some? ==> d1.err.value.IsConversion() && d2.err.value.IsConversion() &&
                                 d1.err.value.fromType == d2.err.value.fromType &&
                                 (d1.err.value == d2.err.value ||
                                  (d1.err.value.toType == c1.floatWord && d2.err.value.toType == c2.floatWord &&
                                   d1.err.value == d2.err.value.(toType := c1.floatWord))))
    decreases |fields| - i
  {
    if i < |fields| {
      var s1, s2 := Step(c1, src, fields[i]), Step(c2, src, fields[i]);
      match s1
      case Skip =>
        SameOnExportedScalars(c1, c2, src, fields, vals, i + 1);
      case Write(v) =>
        SameOnExportedScalars(c1, c2, src, fields, vals[i := v], i + 1);
      case Fail(e) =>
    }
  }

  const TestFields := [
    Field("SortBy", Type("string", StringKind), map["query" := "sort-by"], true),
    Field("Limit", Type("int", IntKind(W64)), map["query" := "limit"], true),
    Field("ShowInactive", Type("bool", BoolKind), map["query" := "show-inactive"], true)]

  const TestQuery := map["sort-by" := ["name"], "limit" := ["100"], "show-inactive" := ["true"]]

  lemma TestSortBy(pf: FloatParser)
    ensures Step(RequestConfig(pf), EncodingQuery.QuerySource(TestQuery), TestFields[0]) == Write(StrV("name"))
  {
    var src := EncodingQuery.QuerySource(TestQuery);
    assert TagOf(TestFields[0], "query") == "sort-by";
    assert Values(src, "sort-by") == ["name"];
    StepWritesScalar(RequestConfig(pf), src, TestFields[0], StrV("name"));
  }

  lemma TestLimit(pf: FloatParser)
    ensures Step(RequestConfig(pf), EncodingQuery.QuerySource(TestQuery), TestFields[1]) == Write(IntV(100))
  {
    var src := EncodingQuery.QuerySource(TestQuery);
    assert TagOf(TestFields[1], "query") == "limit";
    assert Values(src, "limit") == ["100"];
    EncodingQuery.ExampleNumerals();
    assert Truncate(W64, 100) == 100;
    assert CoerceScalar(TestFields[1].typ, "100", pf) == Coerced(IntV(100));
    StepWritesScalar(RequestConfig(pf), src, TestFields[1], IntV(100));
  }

  lemma TestShowInactive(pf: FloatParser)
    ensures Step(RequestConfig(pf), EncodingQuery.QuerySource(TestQuery), TestFields[2]) == Write(BoolV(true))
  {
    var src := EncodingQuery.QuerySource(TestQuery);
    assert TagOf(TestFields[2], "query") == "show-inactive";
    assert Values(src, "show-inactive") == ["true"];
    assert IsTrue("true");
    assert CoerceScalar(TestFields[2].typ, "true", pf) == Coerced(BoolV(true));
    StepWritesScalar(RequestConfig(pf), src, TestFields[2], BoolV(true));
  }

  /**
   * The package's own example: `?sort-by=name&limit=100&show-inactive=true`
   * fills {SortBy string, Limit int, ShowInactive bool} with "name", 100 and
   * true, and no error.
   */
  lemma TestQueryDecoderExample(pf: FloatParser)
    ensures Outcome(RequestConfig(pf), EncodingQuery.QuerySource(TestQuery), TestFields, [StrV(""), IntV(0), BoolV(false)])
              == Decoded([StrV("name"), IntV(100), BoolV(true)], None)
  {
    var cfg, src := RequestConfig(pf), EncodingQuery.QuerySource(TestQuery);
    var ws := [StrV("name"), IntV(100), BoolV(true)];
    forall j | 0 <= j < |TestFields|
      ensures Step(cfg, src, TestFields[j]) == Write(ws[j])
    {
      if j == 0 {
        TestSortBy(pf);
      } else if j == 1 {
        TestLimit(pf);
      } else {
        TestShowInactive(pf);
      }
    }
    WalkFromAllWrite(cfg, src, TestFields, [StrV(""), IntV(0), BoolV(false)], ws, 0);
    assert |TestQuery| == 3;
  }
}
