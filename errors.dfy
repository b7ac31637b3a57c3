/**
 * The errors the core reports: the per-variant type-conversion errors
 * (encoding.QueryTypeError, encoding.StringsDecodeError,
 * decoding.StringsDecodeError, decoding.RequestDecodeError), strconv's raw
 * NumError, the TypeMatchError and ResponseNotWrittenError sentinels, and the
 * errors of foreign code (media-type parsing, serializers), kept opaque.
 */
module Errors {
  import Strconv

  /** The Go package that declares a StringsDecodeError. */
  datatype GoPackage = EncodingPackage | DecodingPackage

  // The fixed parts of the conversion errors' messages.
  const QueryPrefix := "QueryTypeError: Can not convert type "
  const StringsPrefix := "StringsDecodeError: Can not convert type "
  const RequestPrefix := "Decode Error: Bad type conversion ("
  const ToTypeWord := " to type "
  const ToWord := " to "

  datatype Error =
    | QueryTypeError(fromType: string, toType: string)
    | StringsDecodeError(pkg: GoPackage, fromType: string, toType: string)
    | RequestDecodeError(fromType: string, toType: string)
    | NumError(func: string, num: string, cause: Strconv.NumErr)
    | TypeMatchError
    | ResponseNotWrittenError
      /** reflect panics when a walker writes a field it may not set (unexported). */
    | ReflectPanic(field: string)
      /** An error produced by code outside the core, passed through unchanged. */
    | Foreign(id: nat)
  {
    /** The three type-conversion errors of the field walkers. */
    predicate IsConversion()
    {
      QueryTypeError? || StringsDecodeError? || RequestDecodeError?
    }

    /** The Error() text of the errors whose text the core defines. */
    predicate HasMessage()
    {
      IsConversion() || TypeMatchError? || ResponseNotWrittenError?
    }

    /**
     * The Error() text: a conversion error's text ends with its target type
     * (closed by a parenthesis for a RequestDecodeError).
     */
    function Message(): (m: string)
      requires HasMessage()
      ensures QueryTypeError? || StringsDecodeError? ==> |toType| <= |m| && m[|m| - |toType|..] == toType
      ensures RequestDecodeError? ==> |toType| < |m| && m[|m| - |toType| - 1..] == toType + ")"
    {
      match this
      case QueryTypeError(f, t) => EndsWith(QueryPrefix + f + ToTypeWord, t)
      case StringsDecodeError(_, f, t) => EndsWith(StringsPrefix + f + ToTypeWord, t)
      case RequestDecodeError(f, t) => EndsWith(RequestPrefix + f + ToWord, t + ")")
      case TypeMatchError => "No matching type"
      case ResponseNotWrittenError => "Response was not written: No encoder indicated a written response"
    }
  }

  /** `head` followed by `tail`, which it ends with. */
  function EndsWith(head: string, tail: string): (m: string)
    ensures m == head + tail
    ensures |tail| <= |m| && m[|m| - |tail|..] == tail
  {
    head + tail
  }

  /** The first letter of a conversion error's message tells its kind. */
  function Initial(e: Error): char
    requires e.IsConversion()
  {
    if e.QueryTypeError? then 'Q' else if e.StringsDecodeError? then 'S' else 'D'
  }

  lemma MessageInitial(e: Error)
    requires e.IsConversion()
    ensures |e.Message()| > 0 && e.Message()[0] == Initial(e)
  {
    var p := if e.QueryTypeError? then QueryPrefix else if e.StringsDecodeError? then StringsPrefix else RequestPrefix;
    assert p[0] == Initial(e);
    var rest := e.Message()[|p|..];
    assert e.Message() == p + rest;
  }

  lemma PrefixCancel(p: string, a: string, b: string)
    requires p + a == p + b
    ensures a == b
  {
    assert a == (p + a)[|p|..];
    assert b == (p + b)[|p|..];
  }

  lemma SuffixCancel(a: string, b: string, q: string)
    requires a + q == b + q
    ensures a == b
  {
    assert a == (a + q)[..|a|];
    assert b == (b + q)[..|b|];
  }

  /**
   * A conversion error from a string is identified by its message: two such
   * errors with the same text are of the same kind and name the same target
   * type (only the declaring package of a StringsDecodeError is not shown).
   */
  lemma ConversionMessageIdentifies(e1: Error, e2: Error)
    requires e1.IsConversion() && e2.IsConversion()
    requires e1.fromType == "string" && e2.fromType == "string"
    requires e1.Message() == e2.Message()
    ensures e1.QueryTypeError? == e2.QueryTypeError?
    ensures e1.StringsDecodeError? == e2.StringsDecodeError?
    ensures e1.toType == e2.toType
  {
    MessageInitial(e1);
    MessageInitial(e2);
    assert Initial(e1) == Initial(e2);
    match e1
    case QueryTypeError(f, t1) =>
      PrefixCancel(QueryPrefix + f + ToTypeWord, t1, e2.toType);
    case StringsDecodeError(_, f, t1) =>
      PrefixCancel(StringsPrefix + f + ToTypeWord, t1, e2.toType);
    case RequestDecodeError(f, t1) =>
      var x := RequestPrefix + f + ToWord;
      assert x + (t1 + ")") == x + t1 + ")" && x + (e2.toType + ")") == x + e2.toType + ")";
      SuffixCancel(x + t1, x + e2.toType, ")");
      PrefixCancel(x, t1, e2.toType);
  }
}
