/**
 * encoding/util.go: StrSet, the one-field version of the kind switch, which
 * passes strconv's own errors through and reports an unsupported kind with
 * the TypeMatchError sentinel.
 */
module EncodingUtil {
  import opened Wrappers
  import opened Errors
  import opened Strconv
  import opened Reflection
  import opened Coercion
  import EncodingQuery

  /** StrSet: the value a field of type `t` is set to from `qs`, or the error returned. */
  function StrSet(t: Type, qs: string, pf: FloatParser): (r: Result<Value, Error>)
    ensures r.Failure? <==> !CoerceScalar(t, qs, pf).Coerced?
    ensures r.Success? ==> r.value == CoerceScalar(t, qs, pf).v
    ensures t.kind.IntKind? && r.Failure? ==> r.error == NumError("ParseInt", qs, ParseInt(qs).error)
    ensures t.kind.FloatKind? && r.Failure? ==> r.error == NumError("ParseFloat", qs, pf(qs).error)
    ensures t.kind.SliceKind? || t.kind.OtherKind? ==> r == Failure(TypeMatchError)
  {
    match CoerceScalar(t, qs, pf)
    case Coerced(v) => Success(v)
    case BadInt(e) => Failure(NumError("ParseInt", qs, e))
    case BadFloat(e) => Failure(NumError("ParseFloat", qs, e))
    case Unsupported => Failure(TypeMatchError)
  }

  /** The QueryTypeError the query codec reports where StrSet returns `e`. */
  function AsQueryTypeError(e: Error, t: Type): Error
  {
    match e
    case NumError("ParseInt", _, _) => QueryTypeError("string", "integer")
    case NumError("ParseFloat", _, _) => QueryTypeError("string", "floating point")
    case _ => QueryTypeError("string", t.name)
  }

  /**
   * StrSet and the query codec's set convert alike: they succeed on the same
   * inputs with the same value, and where they fail, the codec reports as a
   * QueryTypeError what StrSet passes through.
   */
  lemma AgreesWithQuerySet(t: Type, qs: string, pf: FloatParser)
    ensures StrSet(t, qs, pf).Success? <==> EncodingQuery.Set(t, qs, pf).Success?
    ensures StrSet(t, qs, pf).Success? ==> StrSet(t, qs, pf).value == EncodingQuery.Set(t, qs, pf).value
    ensures StrSet(t, qs, pf).Failure? ==>
              EncodingQuery.Set(t, qs, pf).error == AsQueryTypeError(StrSet(t, qs, pf).error, t)
  {
  }

  /**
   * An integer kind fails exactly on what is not a decimal numeral in the
   * signed 64-bit range, with ErrRange for a well-formed numeral out of range.
   */
  lemma IntFailures(t: Type, qs: string, pf: FloatParser)
    requires t.kind.IntKind?
    ensures StrSet(t, qs, pf).Success? <==> IsDecimalInt(qs) && MinInt64 <= IntValue(qs) <= MaxInt64
    ensures StrSet(t, qs, pf).Failure? && IsDecimalInt(qs) ==> StrSet(t, qs, pf).error.cause == ErrRange
  {
    ParseIntMeaning(qs);
  }
}
