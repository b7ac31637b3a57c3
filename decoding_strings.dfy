/**
 * decoding/strings.go: StringsDecoder, the decoding package's copy of the
 * strings codec. Its walk is the same as encoding.StringsCodec's; only its
 * StringsDecodeError is the decoding package's type.
 */
module DecodingStrings {
  import opened Wrappers
  import opened Errors
  import opened Strconv
  import opened Reflection
  import opened Coercion
  import opened TagWalker
  import opened EncodingStrings

  datatype StringsDecoder = StringsDecoder(stringer: Stringer, tagName: string)

  /** decoding.Strings(stringer, name). */
  function NewStrings(stringer: Stringer, name: string): (d: StringsDecoder)
    ensures d.stringer == stringer && d.tagName == name
  {
    StringsDecoder(stringer, name)
  }

  /** StringsDecoder.Decode: updates the candidate's fields in place and returns the error. */
  method Decode(decoder: StringsDecoder, fields: seq<Field>, candidate: array<Value>, pf: FloatParser)
    returns (err: Option<Error>)
    requires candidate.Length == |fields|
    modifies candidate
    ensures decoder.stringer.len == 0 ==> err == None && candidate[..] == old(candidate[..])
    ensures Decoded(candidate[..], err) ==
              Outcome(StringsConfig(DecodingPackage, decoder.tagName, pf), StringerSource(decoder.stringer), fields, old(candidate[..]))
  {
    err := TagWalker.Decode(StringsConfig(DecodingPackage, decoder.tagName, pf), StringerSource(decoder.stringer), fields, candidate);
  }

  /**
   * The two strings decoders agree: over the same stringer, tag name and
   * candidate they leave the same field values, and fail together, with the
   * same message (only the declaring package of the error differs).
   */
  lemma SameAsEncodingCodec(sr: Stringer, tagName: string, fields: seq<Field>, vals: seq<Value>, pf: FloatParser)
    requires |vals| == |fields|
    ensures var src := StringerSource(sr);
            var e := Outcome(StringsConfig(EncodingPackage, tagName, pf), src, fields, vals);
            var d := Outcome(StringsConfig(DecodingPackage, tagName, pf), src, fields, vals);
            && d.values == e.values
            && d.err.None? == e.err.None?
            && (d.err.Some? ==> e.err.value.StringsDecodeError? &&
                                d.err.value == e.err.value.(pkg := DecodingPackage) &&
                                d.err.value.Message() == e.err.value.Message())
  {
    var src := StringerSource(sr);
    var cfg := StringsConfig(EncodingPackage, tagName, pf);
    OutcomeRebrand(cfg, StringsDecodeFamily(DecodingPackage), src, fields, vals);
    EncodingStrings.DecodeErrors(StringsCodec(sr, tagName), fields, vals, pf);
  }

  function TestField(name: string, t: Type, tag: string): Field
  {
    Field(name, t, map["test" := tag], true)
  }

  const TestStringer := Stringer(3, map["email" := "example@test.com", "name" := "Tyler", "age" := "22"])

  const TestFields := [TestField("Name", Type("string", StringKind), "name"),
                       TestField("Email", Type("string", StringKind), "email"),
                       TestField("Age", Type("int", IntKind(W64)), "age")]

  lemma TestName(pf: FloatParser)
    ensures Step(StringsConfig(DecodingPackage, "test", pf), StringerSource(TestStringer), TestFields[0]) == Write(StrV("Tyler"))
  {
    var src := StringerSource(TestStringer);
    assert TagOf(TestFields[0], "test") == "name";
    assert First(src, "name") == "Tyler";
    StepWritesScalar(StringsConfig(DecodingPackage, "test", pf), src, TestFields[0], StrV("Tyler"));
  }

  lemma TestEmail(pf: FloatParser)
    ensures Step(StringsConfig(DecodingPackage, "test", pf), StringerSource(TestStringer), TestFields[1]) == Write(StrV("example@test.com"))
  {
    var src := StringerSource(TestStringer);
    assert TagOf(TestFields[1], "test") == "email";
    assert First(src, "email") == "example@test.com";
    StepWritesScalar(StringsConfig(DecodingPackage, "test", pf), src, TestFields[1], StrV("example@test.com"));
  }

  lemma TestAge(pf: FloatParser)
    ensures Step(StringsConfig(DecodingPackage, "test", pf), StringerSource(TestStringer), TestFields[2]) == Write(IntV(22))
  {
    var src := StringerSource(TestStringer);
    assert TagOf(TestFields[2], "test") == "age";
    assert First(src, "age") == "22";
    ParseFormatRoundTrip(22);
    assert FormatInt(22) == "22";
    assert Truncate(W64, 22) == 22;
    assert CoerceScalar(TestFields[2].typ, "22", pf) == Coerced(IntV(22));
    StepWritesScalar(StringsConfig(DecodingPackage, "test", pf), src, TestFields[2], IntV(22));
  }

  /**
   * The package's own example: {email, name, age: "22"} under tag "test"
   * fills {Name string, Email string, Age int} with "Tyler",
   * "example@test.com" and 22, and no error.
   */
  lemma TestStringsDecoderExample(pf: FloatParser)
    ensures Outcome(StringsConfig(DecodingPackage, "test", pf), StringerSource(TestStringer), TestFields,
                    [StrV(""), StrV(""), IntV(0)])
              == Decoded([StrV("Tyler"), StrV("example@test.com"), IntV(22)], None)
  {
    var cfg, src := StringsConfig(DecodingPackage, "test", pf), StringerSource(TestStringer);
    var ws := [StrV("Tyler"), StrV("example@test.com"), IntV(22)];
    forall j | 0 <= j < |TestFields|
      ensures Step(cfg, src, TestFields[j]) == Write(ws[j])
    {
      if j == 0 {
        TestName(pf);
      } else if j == 1 {
        TestEmail(pf);
      } else {
        TestAge(pf);
      }
    }
    WalkFromAllWrite(cfg, src, TestFields, [StrV(""), StrV(""), IntV(0)], ws, 0);
  }
}
