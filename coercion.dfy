/**
 * The kind switch every walker variant shares: turn one source string into a
 * value for a field of a given type. Integers parse as base-10 int64 and are
 * truncated to the field's width; floats go to the float parser; strings are
 * copied; booleans are true exactly for "true" in any letter case and never
 * fail; every other kind is unsupported. Each variant maps the failures to its
 * own error type.
 */
module Coercion {
  import opened Wrappers
  import opened Text
  import opened Strconv
  import opened Reflection

  /** strconv.ParseFloat, foreign to the model: the float bits, or why parsing failed. */
  type FloatParser = string -> Result<bv64, NumErr>

  datatype Coerced =
    | Coerced(v: Value)
    | BadInt(cause: NumErr)
    | BadFloat(cause: NumErr)
    | Unsupported

  /** The permissive boolean test: strings.ToLower(s) == "true". */
  predicate IsTrue(s: string)
  {
    ToLower(s) == "true"
  }

  /**
   * One source string for a field of type `t`: a converted value has the
   * field's kind (an integer within the field's width), and each failure
   * belongs to its kind.
   */
  function CoerceScalar(t: Type, s: string, parseFloat: FloatParser): (r: Coerced)
    ensures r.Coerced? ==> match t.kind
                           case IntKind(w) => r.v.IntV? && -(Modulus(w) / 2) <= r.v.i < Modulus(w) / 2
                           case FloatKind => r.v.FloatV?
                           case StringKind => r.v == StrV(s)
                           case BoolKind => r.v.BoolV?
                           case _ => false
    ensures r.BadInt? ==> t.kind.IntKind?
    ensures r.BadFloat? ==> t.kind.FloatKind?
    ensures r.Unsupported? <==> t.kind.SliceKind? || t.kind.OtherKind?
  {
    match t.kind
    case IntKind(w) =>
      (match ParseInt(s)
       case Success(v) => Coerced(IntV(Truncate(w, v)))
       case Failure(e) => BadInt(e))
    case FloatKind =>
      (match parseFloat(s)
       case Success(b) => Coerced(FloatV(b))
       case Failure(e) => BadFloat(e))
    case StringKind => Coerced(StrV(s))
    case BoolKind => Coerced(BoolV(IsTrue(s)))
    case _ => Unsupported
  }

  /** "true" with each letter in either case: the reference for IsTrue. */
  predicate SpellsTrue(s: string)
  {
    |s| == 4 && s[0] in "tT" && s[1] in "rR" && s[2] in "uU" && s[3] in "eE"
  }

  lemma IsTrueMeaning(s: string)
    ensures IsTrue(s) <==> SpellsTrue(s)
  {
    var l := ToLower(s);
    if SpellsTrue(s) {
      assert l == "true";
    }
    if IsTrue(s) {
      assert l[0] == 't' && l[1] == 'r' && l[2] == 'u' && l[3] == 'e';
    }
  }

  /**
   * What the coercion means, kind by kind: an integer field receives the
   * truncated value of a well-formed in-range decimal numeral and fails
   * otherwise; a float field fails exactly when the float parser does; a string
   * field receives the string; a boolean field receives "is it true in any
   * letter case" and never fails; every other kind (slices included) is
   * unsupported.
   */
  lemma CoerceScalarMeaning(t: Type, s: string, pf: FloatParser)
    ensures t.kind.IntKind? ==>
              (CoerceScalar(t, s, pf).Coerced? <==> IsDecimalInt(s) && MinInt64 <= IntValue(s) <= MaxInt64)
    ensures t.kind.IntKind? && CoerceScalar(t, s, pf).Coerced? ==>
              CoerceScalar(t, s, pf).v == IntV(Truncate(t.kind.width, IntValue(s)))
    ensures t.kind.IntKind? && !CoerceScalar(t, s, pf).Coerced? ==> CoerceScalar(t, s, pf).BadInt?
    ensures t.kind.FloatKind? ==>
              (CoerceScalar(t, s, pf).Coerced? <==> pf(s).Success?) &&
              (pf(s).Failure? ==> CoerceScalar(t, s, pf) == BadFloat(pf(s).error))
    ensures t.kind.StringKind? ==> CoerceScalar(t, s, pf) == Coerced(StrV(s))
    ensures t.kind.BoolKind? ==> CoerceScalar(t, s, pf) == Coerced(BoolV(SpellsTrue(s)))
    ensures t.kind.SliceKind? || t.kind.OtherKind? ==> CoerceScalar(t, s, pf) == Unsupported
  {
    ParseIntMeaning(s);
    IsTrueMeaning(s);
  }
}
