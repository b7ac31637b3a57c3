# parcel, modelled in Dafny

parcel is a small Go library for HTTP handlers. It decodes request data into a
caller's struct and encodes a response with an encoder chosen by content
negotiation. The project models the library's core:

- **Factory** (`Parcels.Factory`): the registry. It holds a map from media type
  to encoder, an ordered chain of decoders and an optional default encoder.
  Its methods update those three fields in place.
- **Parcel** (`Parcels.Parcel`): one request/response pair.
  - `Decode` runs the decoder chain over a candidate. The candidate is an
    `array<Value>` updated in place, and the chain stops at the first error.
  - `GetEncoder` negotiates an encoder from the `Accept` header. It goes
    through `parseAccept`, modelled by the method `ParseAccept` over `seq`.
  - `Encode` sets Content-Type and the status on the response writer, then
    delegates to the encoder.
- **The tag-driven field decoders.** There are four near-identical variants:
  - `encoding.QueryCodec`;
  - `encoding.StringsCodec`;
  - `decoding.StringsDecoder`;
  - `decoding.QueryDecoder`.

  Each is one generic walker (`TagWalker.Decode`, a loop that writes the
  candidate's fields) under one configuration:
  - the tag name;
  - the error type;
  - the word used for floats;
  - slice support;
  - whether unsettable fields are skipped.

  The walker is proved equal to the specification function
  `TagWalker.Outcome`. Lemmas then state what that function means field by
  field, and how the variants relate.
- **The scalar coercions.** Every variant shares them, as does
  `encoding.StrSet`:
  - base-10 `strconv.ParseInt`, written as the library scans and proved equal
    to a positional reference definition;
  - two's-complement narrowing on `SetInt`;
  - the permissive lower-case `"true"` test.
- **The XML codec's applicability gate.** This covers the method and
  media-type test on `Decode`, and the `Encodes`/`ContentType` pair that feeds
  registration.

Reflection is replaced by field descriptors: name, type, struct tags, and
whether the field can be set. The parsed query string is a
`map<string, seq<string>>`. A `Stringer` is its `Len` and the strings its
`Get` returns.

Three behaviours of the code are worth knowing, and the model keeps them:

- The Content-Type fallback in `GetEncoder` is dead: a POST with Content-Type
  `application/json` and no `Accept` header never selects the JSON encoder
  (see Findings). `Parcels.Parcel.GetEncoder` and `Parcels.Parcel.Encode`
  behave as the code does; `Parcels.Parcel.GetEncoderCorrected` is the
  negotiation with the fallback working.
- The XML decoder has no check for an empty body. A Content-Type that does not
  parse returns the media-type parse error, because `err` is the named result.
- `decoding.QueryDecoder` does not check whether a field can be set. The model
  lets such a write fail, as reflect does (see
  `DecodingQuery.UnexportedFieldPanics`).

## Model

| member | source | states |
|---|---|---|
| Parcels.Factory.constructor | parcel.go:54-59 | a new factory has no encoders, an empty decoder chain and no default encoder |
| Parcels.Factory.UseDefaultEncoder | parcel.go:62-64 | the default encoder becomes the given one (possibly nil); the map and the chain are unchanged |
| Parcels.Factory.UseEncoder | parcel.go:67-71 | the loop binds every media type from Encodes() to the encoder, in order; the default and the chain are unchanged |
| Parcels.Bind | parcel.go:67-71 | after registration each listed key maps to the encoder, overwriting earlier bindings; every other key keeps its binding or its absence |
| Parcels.Factory.UseDecoder | parcel.go:74-76 | the decoder is appended to the end of the chain; nothing else changes |
| Parcels.Factory.Use | parcel.go:80-88 | a value is appended as a decoder if it is one, and its media types are bound if it is an encoder; both when it is both |
| Parcels.Factory.Parcel | parcel.go:91-93 | a fresh parcel holding the response writer, the request and this factory |
| Parcels.Parcel.constructor | parcel.go:92 | the new parcel holds exactly the response writer, the request and the factory it is given |
| Parcels.Factory.NewCodec | parcel.go:96-98 | the same as Parcel |
| Parcels.Parcel.Decode | parcel.go:121-129 | the candidate and the error are those of the chain model: decoders in registration order on the same candidate, stopping at the first error |
| Parcels.ChainSplit | parcel.go:121-129 | running a concatenated chain is running the first part, then the second only if the first succeeded, from what the first left |
| Parcels.Chain | parcel.go:121-129 | the chain model: decoders run in order on what their predecessors left; a failing result is what some decoder of the chain returned |
| Parcels.ChainSucceeds | parcel.go:121-129 | the chain returns nil exactly when every decoder returns nil on what its predecessors left |
| Parcels.ChainFirstError | parcel.go:122-126 | when decoder k is the first to fail, the chain returns what k returned, and any decoders after k make no difference |
| Parcels.ParseAccept | parcel.go:164-175 | the in-place rewrite of the split parts yields exactly AcceptList(accept) |
| Parcels.MediaRange | parcel.go:167-171 | an entry holds no ';', contains only characters of its segment, and neither starts nor ends with white space |
| Parcels.AcceptList | parcel.go:164-175 | what parseAccept returns: never empty, and no entry holds a ';' |
| Parcels.AcceptListMeaning | parcel.go:164-175 | one entry per comma-separated segment, in order; joining the segments gives the header back; there is one more entry than there are commas; each entry is its segment cut at the first ';' and trimmed |
| Parcels.ParametersIgnored | parcel.go:167-170 | media-type parameters, q weights included, are dropped, so preference is list order alone |
| Parcels.Lookup | parcel.go:148-160 | the scan returns the negotiation result for the candidates |
| Parcels.Negotiate | parcel.go:148-160 | the negotiated encoder is the default or one registered in the map |
| Parcels.NegotiateMeaning | parcel.go:148-160 | the result is the encoder under the earliest candidate that has one, by exact key; with none registered it is the default, possibly nil |
| Parcels.CandidatesAsWritten | parcel.go:135-146 | the candidates extend the Accept list exactly when that list is empty, the request has a body and its Content-Type parses, and then by that media type alone |
| Parcels.Parcel.GetEncoder | parcel.go:133-161 | the chosen encoder is the negotiation over the candidates as written, which is the negotiation over the Accept list alone |
| Parcels.FallbackUnreachable | parcel.go:135-146 | parseAccept never returns an empty list, so as written the candidates are always the Accept list and Content-Type is never consulted |
| Parcels.FallbackCounterexample | parcel.go:135-146 | for a POST of application/json with no Accept header and a JSON encoder registered, the code as written selects nothing, while the corrected fallback selects the JSON encoder |
| Parcels.Candidates | parcel.go:135-146 | the corrected candidates extend the Accept list exactly when it names no media type, the request has a body and its Content-Type parses, and then by that media type alone |
| Parcels.Parcel.GetEncoderCorrected | parcel.go:133-161 | the encoder negotiated over the corrected candidates |
| Parcels.CorrectedAgrees | parcel.go:135-146 | the correction changes nothing for a request whose Accept header names a media type |
| Parcels.CorrectedFallback | parcel.go:137-146 | with the fallback taken, a body request whose Content-Type parses gets the encoder registered under that type, else the default |
| Parcels.Parcel.Encode | parcel.go:106-116 | the encoder is GetEncoder's (the code's negotiation); with none, ResponseNotWrittenError is returned and nothing is written; otherwise Content-Type is set to the encoder's content type, then the status is written, and the encoder's error is returned unchanged |
| Http.ResponseWriter.SetHeader | parcel.go:110 | a header write is appended to the response's record |
| Http.ResponseWriter.WriteHeader | parcel.go:111 | a status write is appended to the response's record |
| Http.Request.HeaderGet | parcel.go:135-140 | Header.Get: the value stored under the key, or the empty string when the header is absent |
| Text.IndexOf | parcel.go:167 | the index of the first occurrence of the byte, or -1 exactly when it is absent |
| Text.Split | parcel.go:165 | at least one piece, none containing the separator |
| Text.JoinSplit | parcel.go:165 | joining the pieces with the separator gives back the input |
| Text.SplitCount | parcel.go:165 | there is one more piece than there are separators |
| Text.Before | parcel.go:167-170 | the prefix before the first ';', or the whole string when there is none |
| Text.TrimSpace | parcel.go:171 | the result neither starts nor ends with white space |
| Text.TrimSpaceMeaning | parcel.go:171 | the result is the slice of the input after its leading white space, and only white space follows it; with TrimSpace's own contract this fixes the result |
| Text.TrimSpaceWithin | parcel.go:171 | trimming only removes characters |
| Text.TrimSpaceFixes | parcel.go:171 | a string without surrounding white space is unchanged |
| Text.TrimSpaceIdempotent | parcel.go:171 | trimming twice is trimming once |
| Text.ToLower | encoding/query.go:51 | lower-casing keeps the length and maps each character (ASCII letters) |
| Strconv.ParseInt | encoding/query.go:33 | a success lies in the signed 64-bit range |
| Strconv.ScanUintMeaning | encoding/query.go:33 | the digit scan succeeds exactly on all-digit text whose value fits in 64 unsigned bits, yields that value, and reports ErrRange for too many digits |
| Strconv.ParseIntMeaning | encoding/query.go:33 | success exactly on an optionally signed decimal numeral within int64, with its value; ErrRange for a well-formed numeral out of range |
| Strconv.ParseFormatRoundTrip | encoding/query.go:33 | every int64 survives FormatInt followed by ParseInt |
| Reflection.Truncate | encoding/query.go:39 | SetInt into a narrower field keeps the value modulo 2^bits, within the field's range, and unchanged when it fits |
| Coercion.CoerceScalar | encoding/query.go:30-63 | a converted value has the field's kind (an integer within the field's width, the string itself for a string); an integer or float failure comes only from its kind; exactly slices and other kinds are unsupported |
| Coercion.IsTrueMeaning | encoding/query.go:50-57 | a boolean is true exactly for "true" in any letter case |
| Coercion.CoerceScalarMeaning | encoding/query.go:30-63 | integers: the narrowed value of an in-range numeral, else a parse failure; floats fail exactly when the parser does; strings are verbatim; booleans never fail; other kinds are unsupported |
| Errors.Error.Message | encoding/query.go:131-133 | the Error() text (also encoding/strings.go:47-49, decoding/strings.go:31-33, decoding/errors.go:11-13) of a conversion error ends with its target type, followed by ')' for a RequestDecodeError |
| Errors.MessageInitial | encoding/query.go:131-133 | a conversion error's message starts with the letter of its kind |
| Errors.ConversionMessageIdentifies | encoding/query.go:131-133 | two conversion errors from "string" with the same message have the same kind and the same target type |
| TagWalker.ConversionError | encoding/query.go:36 | a conversion error from "string" to the given type, in the variant's error type |
| TagWalker.FieldCoercion | encoding/query.go:30-63 | fails exactly when the scalar coercion fails, with a conversion error of the variant's family from "string" to "integer" for an integer field, to the variant's float word for a float field, and to the type's own name for an unsupported kind; otherwise yields the coerced value |
| TagWalker.CoerceAllSucceeds | encoding/query.go:106-118 | the slice converts exactly when every entry does, and then has one element per entry, element k converted from entry k |
| TagWalker.CoerceAllFirstFailure | encoding/query.go:112-116 | the slice's error is that of its first entry that does not convert |
| TagWalker.CoerceAllFailure | encoding/query.go:112-116 | a slice failure is a conversion error of the variant's family from "string" |
| TagWalker.CoerceAll | encoding/query.go:107-116 | the slice fill as a value: on success one element per entry, on failure the error of some entry's conversion |
| TagWalker.BuildSlice | encoding/query.go:107-118 | the loop that fills a fresh slice by index yields the slice conversion of the entries, or its first error |
| TagWalker.Decode | encoding/query.go:67-127 | the field loop leaves the candidate and error that Outcome describes for the old candidate |
| TagWalker.Step | encoding/query.go:80-124 | one iteration: the field is skipped exactly when it has no tag, no first value, or cannot be set in a checking variant; a written field is settable; a failure is a conversion error of the variant's type or, without the check, reflect's refusal on that field |
| TagWalker.WalkFrom | encoding/query.go:80-126 | the field loop from field i on as a value: the candidate keeps one value per field, and the walk stops at a failing step with that step's error |
| TagWalker.Effect | encoding/query.go:118-122 | the value a field holds after its own step: the written value, or the old one when the step skips or fails |
| TagWalker.FirstFailure | encoding/query.go:80-124 | the first field from i on whose step fails: every step before it does not fail |
| TagWalker.WalkFromMeaning | encoding/query.go:80-124 | fields before the first failure hold their step's effect, that field and all later ones are untouched, and the error is that field's |
| TagWalker.OutcomeMeaning | encoding/query.go:67-127 | with an empty source nothing changes and nil is returned; otherwise the first-failure description above holds from field 0 |
| TagWalker.Outcome | encoding/query.go:67-127 | a whole Decode call as a value: a source with no keys leaves the candidate as it was and returns nil, otherwise the walk from the first field; one value per field either way |
| TagWalker.SkippedFieldUnchanged | encoding/query.go:82-99 | an untagged field, one with an empty or missing first value, or an unsettable one when the variant checks, keeps its value |
| TagWalker.WalkFromAllWrite | encoding/query.go:80-126 | when every field is written, the walk yields exactly the written values and nil |
| TagWalker.Rebrand | decoding/strings.go:62 | the same conversion failure (from and to types) in another error type; other errors pass through |
| TagWalker.OutcomeRebrand | decoding/strings.go:35-96 | two variants that differ only in error type leave the same candidate and fail together, each reporting the failure in its own type |
| TagWalker.CheckedWalkNeverPanics | encoding/strings.go:81-84 | a variant that skips unsettable fields only fails with a conversion error of its own family from "string" |
| EncodingQuery.Set | encoding/query.go:30-63 | integer and float failures are QueryTypeErrors to "integer" and "floating point" exactly when the parse fails; strings and booleans succeed; other kinds fail with the type's name; a success is the shared coercion's value |
| EncodingQuery.QueryConfig | encoding/query.go:80-124 | QueryCodec's walk: tag `query`, QueryTypeErrors with the "floating point" label, slices filled from repeated keys, unsettable fields skipped |
| EncodingQuery.QuerySource | encoding/query.go:68-73 | r.URL.Query() as a source: its count is the number of distinct keys, a key's values are its repeated values in order, its first value is Get's result, and a missing key has none |
| EncodingQuery.Decode | encoding/query.go:67-127 | with no query keys nothing changes and nil is returned; otherwise the candidate and error are the query variant's Outcome |
| EncodingQuery.SliceFieldDecoded | encoding/query.go:106-118 | a reached slice field is written with one element per repeated value, element k set from value k, exactly when all convert; otherwise the step fails |
| EncodingQuery.SliceFieldFirstError | encoding/query.go:112-116 | the slice field's error is that of its first value that fails to convert |
| EncodingQuery.ListQueryExample | encoding/query_test.go:17-44 | the test query gives "name", 100, true and [1, 2], and no error |
| EncodingQuery.ExampleSortBy | encoding/query_test.go:29-31 | the test's sort-by field is written with "name" |
| EncodingQuery.ExampleLimit | encoding/query_test.go:33-35 | the test's limit field is written with 100 |
| EncodingQuery.ExampleShowInactive | encoding/query_test.go:37-39 | the test's show-inactive field is written with true |
| EncodingQuery.ExampleIds | encoding/query_test.go:41-43 | the test's id field is written with the slice [1, 2] |
| EncodingStrings.StringerSource | encoding/strings.go:14-17 | the source's count is Len and its first value under each key is Get |
| EncodingStrings.Strings | encoding/strings.go:41-43 | the codec holds the given stringer and tag name |
| EncodingStrings.StringsConfig | encoding/strings.go:65-84 | the strings variant reads the given tag, checks settability and has no slices |
| EncodingStrings.Decode | encoding/strings.go:54-123 | with Len 0 nothing changes and nil is returned; otherwise the candidate and error are the strings variant's Outcome |
| EncodingStrings.FieldStep | encoding/strings.go:66-118 | a reached field is written exactly when its string converts, else fails with a StringsDecodeError from "string" to "integer" for an integer field, to "floating point" for a float field, and to its type's name for an unsupported kind (slices included), which always fails |
| EncodingStrings.DecodeErrors | encoding/strings.go:54-123 | the codec only fails with an encoding.StringsDecodeError from "string" |
| DecodingStrings.NewStrings | decoding/strings.go:27-29 | the decoder holds the given stringer and tag name |
| DecodingStrings.Decode | decoding/strings.go:35-96 | with Len 0 nothing changes and nil is returned; otherwise the candidate and error are the strings variant's Outcome |
| DecodingStrings.SameAsEncodingCodec | decoding/strings.go:35-96 | the nested-if decoder leaves the same values as encoding.StringsCodec and fails together with it, with the same message; only the declaring package differs |
| DecodingStrings.TestStringsDecoderExample | decoding/strings_test.go:28-58 | the test stringer fills Name, Email and Age with "Tyler", "example@test.com" and 22, and no error |
| DecodingStrings.TestName | decoding/strings_test.go:56-58 | the test's Name field is written with "Tyler" |
| DecodingStrings.TestEmail | decoding/strings_test.go:52-54 | the test's Email field is written with "example@test.com" |
| DecodingStrings.TestAge | decoding/strings_test.go:48-50 | the test's Age field is written with 22 |
| DecodingQuery.RequestConfig | decoding/query.go:29-36 | the query decoder reads the `query` tag, has no settability check and no slices |
| DecodingQuery.Decode | decoding/query.go:16-74 | with no query keys nothing changes and nil is returned; otherwise the candidate and error are the request variant's Outcome |
| DecodingQuery.UnexportedFieldPanics | decoding/query.go:27-47 | without a settability check, an unexported tagged field whose value converts aborts the walk, because reflect refuses the write; one whose value does not convert reports the RequestDecodeError |
| DecodingQuery.SameOnExportedScalars | decoding/query.go:27-70 | on settable, non-slice fields, two query variants that differ in slices, settability checking and float wording walk alike |
| DecodingQuery.AgreesWithQueryCodec | decoding/query.go:16-74 | on settable, non-slice fields the decoder matches encoding.QueryCodec: same values, same failures as RequestDecodeError, and "floating point number" where the codec says "floating point" |
| DecodingQuery.TestQueryDecoderExample | decoding/query_test.go:16-38 | the test query fills SortBy, Limit and ShowInactive with "name", 100 and true, and no error |
| DecodingQuery.TestSortBy | decoding/query_test.go:28-30 | the test's SortBy field is written with "name" |
| DecodingQuery.TestLimit | decoding/query_test.go:32-34 | the test's Limit field is written with 100 |
| DecodingQuery.TestShowInactive | decoding/query_test.go:36-38 | the test's ShowInactive field is written with true |
| EncodingUtil.StrSet | encoding/util.go:14-47 | an integer failure is the raw ParseInt error and a float failure the raw ParseFloat error; an unsupported kind is TypeMatchError; a success is the shared coercion's value |
| EncodingUtil.AgreesWithQuerySet | encoding/util.go:14-47 | StrSet and QueryCodec.set succeed on the same inputs with the same value; where they fail, the codec reports as a QueryTypeError what StrSet passes through raw |
| EncodingUtil.IntFailures | encoding/util.go:16-23 | an integer field fails exactly when the string is not an in-range decimal numeral, with ErrRange for a well-formed numeral out of range |
| EncodingXml.Decode | encoding/xml.go:23-41 | a method without a body is a no-op returning nil; a Content-Type that does not parse returns the parse error |
| EncodingXml.DecodeReadsBodyIff | encoding/xml.go:23-41 | the deserializer runs, and its result is returned, exactly for POST/PUT/PATCH with an XML media type; otherwise the candidate is kept, and nil is returned unless the Content-Type did not parse |
| EncodingXml.XMLEncoder | encoding/xml.go:54-60 | the codec's encoder half: registered under application/xml and text/xml, labelling every response application/xml |
| EncodingXml.XML | encoding/xml.go:15-18 | XML(): one codec serving as both a decoder and an encoder |
| EncodingXml.RegisteredUnderBoth | encoding/xml.go:58-60 | registering the codec binds application/xml and text/xml to it and leaves every other key as it was |
| EncodingXml.TextXmlLabelledApplicationXml | encoding/xml.go:54-56 | a request accepting only text/xml is answered by the XML codec, and the response is labelled application/xml, with the candidate list the code negotiates over (Parcels.CandidatesAsWritten) and with the corrected one alike |
| EncodingXml.AcceptSingle | parcel.go:164-175 | a header with one bare media range parses to that range alone |

## Left out

- Floating point: `strconv.ParseFloat` and `SetFloat` are a parameter (`FloatParser`) that yields the float's bits or a parse error. Float syntax and rounding (including Float32 narrowing) are not modelled.
- Library code enters as parameters: `mime.ParseMediaType` (`MediaTypeParser`) and the XML and JSON serializers (`Deserializer`, `EncodeFn`, `DecodeFn`). So does the parsing of the raw query string into url.Values.
- XMLCodec.Encode is pure delegation to the serializer. It appears only as the `EncodeFn` result that `Parcels.Parcel.Encode` returns unchanged. The body written to the response is not modelled.
- HTTP I/O: the response writer only records the header and status writes, in order. Request bodies are not read; the deserializer parameter stands for reading one.
- Header keys are taken as canonical, and only the first value of a header is seen.
- Text.ToLower: maps ASCII letters only, because Unicode case mapping is not modelled. Every property stated here concerns "true", which is ASCII.
- Go interfaces (`Decoder`, `Encoder`, `Stringer`) are data plus function parameters. A value handed to `Use` is a `Codec` saying which of the two interfaces it implements. A `Stringer` is the `Len` and `Get` it answers for one request.
- Reflection is field descriptors, and the candidate is an `array<Value>`. reflect's panic on writing an unexported field is the error value `ReflectPanic`, which aborts the walk as the panic would.
- decoding/query.go does not compile as written: `strings` is not imported, `ParseFloat` gets three arguments, and there is no final return. Its evident logic is modelled.
- decoding/json.go, decoding/xml.go and encoding/json.go are thin serializer wrappers and are not part of this model. decoding/errors.go, encoding/encoding.go and decoding/decoding.go only declare errors and constants, which appear as the `Errors.Error` constructors and the `Mime` constants.
- The scan at the end of `GetEncoder` is its own method (`Parcels.Lookup`), called from `Parcels.Parcel.GetEncoder`.
- Concurrent use of a factory is not modelled.

## Findings

| source | as written | input that shows it | evidently intended | confidence | as-written member | corrected member |
|---|---|---|---|---|---|---|
| parcel.go:135-146 | the Content-Type fallback runs only when `len(accepts) == 0`, but parseAccept (parcel.go:164-175) never returns an empty list, because strings.Split("", ",") is [""] | POST with Content-Type application/json, no Accept header, a JSON encoder registered and no default: nothing is selected and Encode returns ResponseNotWrittenError | a request whose Accept header names no media type falls back to its own Content-Type, and the JSON encoder answers | not executed | Parcels.FallbackCounterexample | Parcels.CorrectedFallback |
