/**
 * encoding/strings.go: StringsCodec decodes from any Stringer (a source that
 * reports how many strings it holds and one string per key) into the fields
 * tagged with a configurable name. Unsettable fields are skipped, slices are
 * not supported, and failures are encoding.StringsDecodeError.
 */
module EncodingStrings {
  import opened Wrappers
  import opened Errors
  import opened Reflection
  import opened Coercion
  import opened TagWalker

  /**
   * A Stringer as the codec sees it for one request: what Len returns and the
   * strings Get returns for the keys that have one (Get gives "" elsewhere).
   */
  datatype Stringer = Stringer(len: int, values: map<string, string>)
  {
    function Get(key: string): string
    {
      if key in values then values[key] else ""
    }
  }

  /** The Stringer as a walker source: one value per key. */
  function StringerSource(sr: Stringer): (src: Source)
    ensures src.count == sr.len
    ensures forall key :: First(src, key) == sr.Get(key)
  {
    Source(sr.len, map k | k in sr.values :: [sr.values[k]])
  }

  /** StringsCodec: the Stringer and the tag name whose values are its keys. */
  datatype StringsCodec = StringsCodec(sr: Stringer, tagName: string)

  /** The walker variant of a StringsCodec with the given tag name. */
  function StringsConfig(pkg: GoPackage, tagName: string, pf: FloatParser): (cfg: Config)
    ensures cfg.tagName == tagName && cfg.checkSettable && !cfg.slices
  {
    Config(tagName, StringsDecodeFamily(pkg), "floating point", false, true, pf)
  }

  /** encoding.Strings(s, name). */
  function Strings(sr: Stringer, name: string): (c: StringsCodec)
    ensures c.sr == sr && c.tagName == name
  {
    StringsCodec(sr, name)
  }

  /** StringsCodec.Decode: updates the candidate's fields in place and returns the error. */
  method Decode(codec: StringsCodec, fields: seq<Field>, candidate: array<Value>, pf: FloatParser)
    returns (err: Option<Error>)
    requires candidate.Length == |fields|
    modifies candidate
    ensures codec.sr.len == 0 ==> err == None && candidate[..] == old(candidate[..])
    ensures Decoded(candidate[..], err) ==
              Outcome(StringsConfig(EncodingPackage, codec.tagName, pf), StringerSource(codec.sr), fields, old(candidate[..]))
  {
    err := TagWalker.Decode(StringsConfig(EncodingPackage, codec.tagName, pf), StringerSource(codec.sr), fields, candidate);
  }

  /**
   * A field the codec reaches (tagged, with a non-empty string, settable) is
   * written with the coerced string or fails with a StringsDecodeError from
   * "string" to "integer" for an integer field, to "floating point" for a
   * float field, and to its type's name for a kind the codec does not support
   * (slices included), which always fails.
   */
  lemma FieldStep(codec: StringsCodec, f: Field, pf: FloatParser)
    requires TagOf(f, codec.tagName) != "" && codec.sr.Get(TagOf(f, codec.tagName)) != "" && f.settable
    ensures var st := Step(StringsConfig(EncodingPackage, codec.tagName, pf), StringerSource(codec.sr), f);
            var qs := codec.sr.Get(TagOf(f, codec.tagName));
            && (st.Write? <==> CoerceScalar(f.typ, qs, pf).Coerced?)
            && (st.Write? ==> st.v == CoerceScalar(f.typ, qs, pf).v)
            && (st.Fail? ==> st.error.StringsDecodeError? && st.error.pkg == EncodingPackage && st.error.fromType == "string")
            && (f.typ.kind.IntKind? && st.Fail? ==> st.error.toType == "integer")
            && (f.typ.kind.FloatKind? && st.Fail? ==> st.error.toType == "floating point")
            && (f.typ.kind.SliceKind? || f.typ.kind.OtherKind? ==>
                  st == Fail(StringsDecodeError(EncodingPackage, "string", f.typ.name)))
  {
  }

  /** The codec only ever fails with a StringsDecodeError from "string", never by writing an unexported field. */
  lemma DecodeErrors(codec: StringsCodec, fields: seq<Field>, vals: seq<Value>, pf: FloatParser)
    requires |vals| == |fields|
    ensures var d := Outcome(StringsConfig(EncodingPackage, codec.tagName, pf), StringerSource(codec.sr), fields, vals);
            d.err.Some? ==> d.err.value.StringsDecodeError? && d.err.value.pkg == EncodingPackage &&
                            d.err.value.fromType == "string"
  {
    var cfg, src := StringsConfig(EncodingPackage, codec.tagName, pf), StringerSource(codec.sr);
    if src.count != 0 {
      CheckedWalkNeverPanics(cfg, src, fields, vals, 0);
      OutcomeMeaning(cfg, src, fields, vals);
    }
  }
}
