/**
 * The tag-driven field walker shared by the four decoder variants. It visits a
 * candidate's fields in declaration order; skips a field whose tag under the
 * configured name is empty, whose first source value is empty or missing, or
 * (when the variant checks) that cannot be set; coerces the source string (or,
 * for slice fields in the variant that supports them, every repeated value)
 * and writes the field; and stops at the first failure, keeping what it has
 * already written. A variant is this walker with one Config.
 */
module TagWalker {
  import opened Wrappers
  import opened Errors
  import opened Reflection
  import opened Coercion

  /** The error type a variant reports conversion failures with. */
  datatype ErrorFamily = QueryTypeFamily | StringsDecodeFamily(pkg: GoPackage) | RequestDecodeFamily

  /** `e` is a conversion error of the family's type (and, for StringsDecodeError, package). */
  predicate OfFamily(e: Error, family: ErrorFamily)
  {
    match family
    case QueryTypeFamily => e.QueryTypeError?
    case StringsDecodeFamily(pkg) => e.StringsDecodeError? && e.pkg == pkg
    case RequestDecodeFamily => e.RequestDecodeError?
  }

  /** A conversion failure from a source string to `toType`, in the variant's error type. */
  function ConversionError(family: ErrorFamily, toType: string): (e: Error)
    ensures e.IsConversion() && OfFamily(e, family) && e.fromType == "string" && e.toType == toType
  {
    match family
    case QueryTypeFamily => QueryTypeError("string", toType)
    case StringsDecodeFamily(pkg) => StringsDecodeError(pkg, "string", toType)
    case RequestDecodeFamily => RequestDecodeError("string", toType)
  }

  /**
   * What distinguishes the variants: the tag name, the error type, the word
   * used for floats in errors, whether slice fields take repeated values,
   * whether unsettable fields are skipped, and the float parser.
   */
  datatype Config = Config(
    tagName: string,
    family: ErrorFamily,
    floatWord: string,
    slices: bool,
    checkSettable: bool,
    parseFloat: FloatParser)

  /**
   * A source of named strings: the count that guards the walk (number of query
   * keys, or Stringer.Len) and every value under each name.
   */
  datatype Source = Source(count: int, values: map<string, seq<string>>)

  /** All values under `key`, in source order (url.Values indexing). */
  function Values(src: Source, key: string): seq<string>
  {
    if key in src.values then src.values[key] else []
  }

  /** The first value under `key`, or "" (url.Values.Get, Stringer.Get). */
  function First(src: Source, key: string): string
  {
    var vs := Values(src, key);
    if |vs| == 0 then "" else vs[0]
  }

  /**
   * One string into one field of type `t`, failures reported in the variant's
   * error type: a bad integer names the target "integer", a bad float the
   * variant's float word, and an unsupported kind the field type's own name.
   */
  function FieldCoercion(cfg: Config, t: Type, s: string): (r: Result<Value, Error>)
    ensures r.Failure? ==> r.error.IsConversion() && OfFamily(r.error, cfg.family) && r.error.fromType == "string"
    ensures r.Failure? <==> !CoerceScalar(t, s, cfg.parseFloat).Coerced?
    ensures r.Success? ==> r.value == CoerceScalar(t, s, cfg.parseFloat).v
    ensures t.kind.IntKind? && r.Failure? ==> r.error.toType == "integer"
    ensures t.kind.FloatKind? && r.Failure? ==> r.error.toType == cfg.floatWord
    ensures t.kind.SliceKind? || t.kind.OtherKind? ==> r == Failure(ConversionError(cfg.family, t.name))
  {
    match CoerceScalar(t, s, cfg.parseFloat)
    case Coerced(v) => Success(v)
    case BadInt(_) => Failure(ConversionError(cfg.family, "integer"))
    case BadFloat(_) => Failure(ConversionError(cfg.family, cfg.floatWord))
    case Unsupported => Failure(ConversionError(cfg.family, t.name))
  }

  /** Every entry coerced to the element type, in order; the first failure wins. */
  function CoerceAll(cfg: Config, elem: Type, entries: seq<string>): (r: Result<seq<Value>, Error>)
    ensures r.Success? ==> |r.value| == |entries|
    ensures r.Failure? ==> exists k :: 0 <= k < |entries| && FieldCoercion(cfg, elem, entries[k]) == Failure(r.error)
  {
    if entries == [] then Success([])
    else
      match FieldCoercion(cfg, elem, entries[0])
      case Failure(e) => Failure(e)
      case Success(v) =>
        match CoerceAll(cfg, elem, entries[1..])
        case Failure(e) => Failure(e)
        case Success(vs) => Success([v] + vs)
  }

  /**
   * CoerceAll succeeds exactly when every entry coerces, and then gives one
   * element per entry, element k coerced from entry k.
   */
  lemma {:induction false} CoerceAllSucceeds(cfg: Config, elem: Type, entries: seq<string>)
    ensures CoerceAll(cfg, elem, entries).Success? <==>
              forall k :: 0 <= k < |entries| ==> FieldCoercion(cfg, elem, entries[k]).Success?
    ensures CoerceAll(cfg, elem, entries).Success? ==>
              var vs := CoerceAll(cfg, elem, entries).value;
              |vs| == |entries| &&
              forall k :: 0 <= k < |entries| ==> vs[k] == FieldCoercion(cfg, elem, entries[k]).value
  {
    if entries != [] {
      CoerceAllSucceeds(cfg, elem, entries[1..]);
      if forall k :: 0 <= k < |entries| - 1 ==> FieldCoercion(cfg, elem, entries[1..][k]).Success? {
        assert forall k :: 1 <= k < |entries| ==> entries[k] == entries[1..][k - 1];
      } else {
        var k :| 0 <= k < |entries| - 1 && FieldCoercion(cfg, elem, entries[1..][k]).Failure?;
        assert entries[1..][k] == entries[k + 1];
      }
    }
  }

  /** When entry `a` is the first that fails, CoerceAll reports its error. */
  lemma {:induction false} CoerceAllFirstFailure(cfg: Config, elem: Type, entries: seq<string>, a: nat)
    requires a < |entries|
    requires forall k :: 0 <= k < a ==> FieldCoercion(cfg, elem, entries[k]).Success?
    requires FieldCoercion(cfg, elem, entries[a]).Failure?
    ensures CoerceAll(cfg, elem, entries) == Failure(FieldCoercion(cfg, elem, entries[a]).error)
  {
    if a > 0 {
      assert forall k :: 0 <= k < a - 1 ==> entries[1..][k] == entries[k + 1];
      CoerceAllFirstFailure(cfg, elem, entries[1..], a - 1);
    }
  }

  /** What the walker does with one field. */
  datatype StepResult = Skip | Write(v: Value) | Fail(error: Error)

  /**
   * One iteration of the field loop: the field is skipped exactly when it has
   * no tag, no (or an empty) first value, or (when the variant checks) cannot
   * be set; a written field is settable; and a failure is either a conversion
   * error of the variant's type from "string" or, in a variant that does not
   * check, reflect's panic on the unsettable field.
   */
  function Step(cfg: Config, src: Source, f: Field): (st: StepResult)
    ensures st.Skip? <==> var tag := TagOf(f, cfg.tagName);
                          tag == "" || First(src, tag) == "" || (cfg.checkSettable && !f.settable)
    ensures st.Write? ==> f.settable
    ensures st.Fail? ==> (st.error.IsConversion() && OfFamily(st.error, cfg.family) && st.error.fromType == "string") ||
                         (!cfg.checkSettable && !f.settable && st.error == ReflectPanic(f.name))
  {
    var tag := TagOf(f, cfg.tagName);
    if tag == "" then Skip
    else
      var qs := First(src, tag);
      if qs == "" then Skip
      else if cfg.checkSettable && !f.settable then Skip
      else
        var r :=
          if cfg.slices && f.typ.kind.SliceKind? then
            CoerceAllFailure(cfg, f.typ.kind.elem, Values(src, tag));
            match CoerceAll(cfg, f.typ.kind.elem, Values(src, tag))
            case Success(vs) => Success(SliceV(vs))
            case Failure(e) => Failure(e)
          else FieldCoercion(cfg, f.typ, qs);
        match r
        case Failure(e) => Fail(e)
        case Success(v) => if f.settable then Write(v) else Fail(ReflectPanic(f.name))
  }

  /** The walk from field `i` on, over the current values. */
  function WalkFrom(cfg: Config, src: Source, fields: seq<Field>, vals: seq<Value>, i: nat): (d: Decoded)
    requires |vals| == |fields| && i <= |fields|
    ensures |d.values| == |fields|
    decreases |fields| - i
  {
    if i == |fields| then Decoded(vals, None)
    else
      match Step(cfg, src, fields[i])
      case Skip => WalkFrom(cfg, src, fields, vals, i + 1)
      case Write(v) => WalkFrom(cfg, src, fields, vals[i := v], i + 1)
      case Fail(e) => Decoded(vals, Some(e))
  }

  /** A tagged, settable scalar field whose first value converts to `v` is written with `v`. */
  lemma StepWritesScalar(cfg: Config, src: Source, f: Field, v: Value)
    requires TagOf(f, cfg.tagName) != "" && First(src, TagOf(f, cfg.tagName)) != ""
    requires f.settable && !(cfg.slices && f.typ.kind.SliceKind?)
    requires CoerceScalar(f.typ, First(src, TagOf(f, cfg.tagName)), cfg.parseFloat) == Coerced(v)
    ensures Step(cfg, src, f) == Write(v)
  {
  }

  /** A tagged, settable slice field whose values all convert, to `vs`, is written with them. */
  lemma StepWritesSlice(cfg: Config, src: Source, f: Field, vs: seq<Value>)
    requires TagOf(f, cfg.tagName) != "" && First(src, TagOf(f, cfg.tagName)) != ""
    requires f.settable && cfg.slices && f.typ.kind.SliceKind?
    requires CoerceAll(cfg, f.typ.kind.elem, Values(src, TagOf(f, cfg.tagName))) == Success(vs)
    ensures Step(cfg, src, f) == Write(SliceV(vs))
  {
  }

  /** One step of the walk that writes `v` moves on with the field updated. */
  lemma WalkFromWrite(cfg: Config, src: Source, fields: seq<Field>, vals: seq<Value>, i: nat, v: Value)
    requires |vals| == |fields| && i < |fields|
    requires Step(cfg, src, fields[i]) == Write(v)
    ensures WalkFrom(cfg, src, fields, vals, i) == WalkFrom(cfg, src, fields, vals[i := v], i + 1)
  {
  }

  /** When every field from `i` on is written, the walk ends with exactly the written values and no error. */
  lemma {:induction false} WalkFromAllWrite(cfg: Config, src: Source, fields: seq<Field>, vals: seq<Value>, ws: seq<Value>, i: nat)
    requires |vals| == |fields| == |ws| && i <= |fields|
    requires forall j :: i <= j < |fields| ==> Step(cfg, src, fields[j]) == Write(ws[j])
    requires vals[..i] == ws[..i]
    ensures WalkFrom(cfg, src, fields, vals, i) == Decoded(ws, None)
    decreases |fields| - i
  {
    if i == |fields| {
      assert vals == vals[..i] && ws == ws[..i];
    } else {
      var next := vals[i := ws[i]];
      assert next[..i + 1] == ws[..i + 1];
      WalkFromWrite(cfg, src, fields, vals, i, ws[i]);
      WalkFromAllWrite(cfg, src, fields, next, ws, i + 1);
    }
  }

  /** A whole Decode call: nothing at all when the source is empty, else the walk. */
  function Outcome(cfg: Config, src: Source, fields: seq<Field>, vals: seq<Value>): (d: Decoded)
    requires |vals| == |fields|
    ensures |d.values| == |fields|
  {
    if src.count == 0 then Decoded(vals, None) else WalkFrom(cfg, src, fields, vals, 0)
  }

  /** The index of the first field from `i` on whose step fails, or |fields|. */
  function FirstFailure(cfg: Config, src: Source, fields: seq<Field>, i: nat): (k: nat)
    requires i <= |fields|
    ensures i <= k <= |fields|
    ensures forall j :: i <= j < k ==> !Step(cfg, src, fields[j]).Fail?
    ensures k < |fields| ==> Step(cfg, src, fields[k]).Fail?
    decreases |fields| - i
  {
    if i == |fields| || Step(cfg, src, fields[i]).Fail? then i
    else FirstFailure(cfg, src, fields, i + 1)
  }

  /** The value a field holds after its own step, when that step does not fail. */
  function Effect(cfg: Config, src: Source, f: Field, v: Value): (w: Value)
    ensures Step(cfg, src, f).Write? ==> w == Step(cfg, src, f).v
    ensures !Step(cfg, src, f).Write? ==> w == v
  {
    match Step(cfg, src, f)
    case Write(w) => w
    case _ => v
  }

  /** What field `j` holds after the walk from `i`: its step's effect between `i` and the first failure, else its value. */
  function AfterWalk(cfg: Config, src: Source, fields: seq<Field>, vals: seq<Value>, i: nat, j: nat): Value
    requires |vals| == |fields| && i <= |fields| && j < |fields|
  {
    if i <= j < FirstFailure(cfg, src, fields, i) then Effect(cfg, src, fields[j], vals[j]) else vals[j]
  }

  lemma {:induction false} WalkFromValues(cfg: Config, src: Source, fields: seq<Field>, vals: seq<Value>, i: nat)
    requires |vals| == |fields| && i <= |fields|
    ensures forall j :: 0 <= j < |fields| ==>
              WalkFrom(cfg, src, fields, vals, i).values[j] == AfterWalk(cfg, src, fields, vals, i, j)
    decreases |fields| - i
  {
    if i < |fields| {
      match Step(cfg, src, fields[i])
      case Skip =>
        WalkFromValues(cfg, src, fields, vals, i + 1);
      case Write(v) =>
        var vals' := vals[i := v];
        WalkFromValues(cfg, src, fields, vals', i + 1);
        forall j | 0 <= j < |fields|
          ensures AfterWalk(cfg, src, fields, vals', i + 1, j) == AfterWalk(cfg, src, fields, vals, i, j)
        {
          if j == i {
            assert Effect(cfg, src, fields[i], vals[i]) == v;
          }
        }
      case Fail(e) =>
    }
  }

  lemma {:induction false} WalkFromError(cfg: Config, src: Source, fields: seq<Field>, vals: seq<Value>, i: nat)
    requires |vals| == |fields| && i <= |fields|
    ensures var k := FirstFailure(cfg, src, fields, i);
            WalkFrom(cfg, src, fields, vals, i).err == (if k < |fields| then Some(Step(cfg, src, fields[k]).error) else None)
    decreases |fields| - i
  {
    if i < |fields| {
      var st := Step(cfg, src, fields[i]);
      if !st.Fail? {
        WalkFromError(cfg, src, fields, if st.Write? then vals[i := st.v] else vals, i + 1);
      }
    }
  }

  lemma WalkFromMeaning(cfg: Config, src: Source, fields: seq<Field>, vals: seq<Value>, i: nat)
    requires |vals| == |fields| && i <= |fields|
    ensures var o := WalkFrom(cfg, src, fields, vals, i);
            var k := FirstFailure(cfg, src, fields, i);
            && |o.values| == |fields|
            && (forall j :: 0 <= j < i ==> o.values[j] == vals[j])
            && (forall j :: i <= j < k ==> o.values[j] == Effect(cfg, src, fields[j], vals[j]))
            && (forall j :: k <= j < |fields| ==> o.values[j] == vals[j])
            && o.err == (if k < |fields| then Some(Step(cfg, src, fields[k]).error) else None)
  {
    WalkFromValues(cfg, src, fields, vals, i);
    WalkFromError(cfg, src, fields, vals, i);
  }

  /**
   * The meaning of a decode, field by field: with an empty source nothing
   * changes and nil is returned. Otherwise let k be the first field whose step
   * fails (or the number of fields): every field before k holds what its step
   * wrote (its old value when skipped), k and every later field are untouched,
   * and the error is k's, or nil when no step fails.
   */
  lemma OutcomeMeaning(cfg: Config, src: Source, fields: seq<Field>, vals: seq<Value>)
    requires |vals| == |fields|
    ensures src.count == 0 ==> Outcome(cfg, src, fields, vals) == Decoded(vals, None)
    ensures src.count != 0 ==>
              var o := Outcome(cfg, src, fields, vals);
              var k := FirstFailure(cfg, src, fields, 0);
              && |o.values| == |fields|
              && (forall j :: 0 <= j < k ==> o.values[j] == Effect(cfg, src, fields[j], vals[j]))
              && (forall j :: k <= j < |fields| ==> o.values[j] == vals[j])
              && o.err == (if k < |fields| then Some(Step(cfg, src, fields[k]).error) else None)
  {
    WalkFromMeaning(cfg, src, fields, vals, 0);
  }

  /**
   * A field with no tag under the configured name, with no (or an empty) first
   * source value, or that cannot be set while the variant checks settability,
   * keeps its value whatever else happens.
   */
  lemma SkippedFieldUnchanged(cfg: Config, src: Source, fields: seq<Field>, vals: seq<Value>, j: nat)
    requires |vals| == |fields| && j < |fields|
    requires var tag := TagOf(fields[j], cfg.tagName);
             tag == "" || First(src, tag) == "" || (cfg.checkSettable && !fields[j].settable)
    ensures Outcome(cfg, src, fields, vals).values[j] == vals[j]
  {
    OutcomeMeaning(cfg, src, fields, vals);
  }

  /** The same failure in the error type of another family; other errors pass through. */
  function Rebrand(e: Error, family: ErrorFamily): (r: Error)
    ensures e.IsConversion() ==> r.IsConversion() && r.fromType == e.fromType && r.toType == e.toType
    ensures !e.IsConversion() ==> r == e
  {
    if !e.IsConversion() then e
    else
      match family
      case QueryTypeFamily => QueryTypeError(e.fromType, e.toType)
      case StringsDecodeFamily(pkg) => StringsDecodeError(pkg, e.fromType, e.toType)
      case RequestDecodeFamily => RequestDecodeError(e.fromType, e.toType)
  }

  function RebrandStep(st: StepResult, family: ErrorFamily): StepResult
  {
    if st.Fail? then Fail(Rebrand(st.error, family)) else st
  }

  lemma {:induction false} CoerceAllRebrand(cfg: Config, family: ErrorFamily, elem: Type, entries: seq<string>)
    ensures var r1, r2 := CoerceAll(cfg, elem, entries), CoerceAll(cfg.(family := family), elem, entries);
            && r1.Success? == r2.Success?
            && (r1.Success? ==> r1.value == r2.value)
            && (r1.Failure? ==> r2.error == Rebrand(r1.error, family))
  {
    if entries != [] {
      CoerceAllRebrand(cfg, family, elem, entries[1..]);
    }
  }

  lemma StepRebrand(cfg: Config, family: ErrorFamily, src: Source, f: Field)
    ensures Step(cfg.(family := family), src, f) == RebrandStep(Step(cfg, src, f), family)
  {
    var tag := TagOf(f, cfg.tagName);
    if tag != "" && cfg.slices && f.typ.kind.SliceKind? {
      CoerceAllRebrand(cfg, family, f.typ.kind.elem, Values(src, tag));
    }
  }

  lemma {:induction false} WalkFromRebrand(cfg: Config, family: ErrorFamily, src: Source, fields: seq<Field>, vals: seq<Value>, i: nat)
    requires |vals| == |fields| && i <= |fields|
    ensures var d1, d2 := WalkFrom(cfg, src, fields, vals, i), WalkFrom(cfg.(family := family), src, fields, vals, i);
            && d1.values == d2.values
            && d1.err.None? == d2.err.None?
            && (d1.err.Some? ==> d2.err.value == Rebrand(d1.err.value, family))
    decreases |fields| - i
  {
    if i < |fields| {
      StepRebrand(cfg, family, src, fields[i]);
      match Step(cfg, src, fields[i])
      case Skip =>
        WalkFromRebrand(cfg, family, src, fields, vals, i + 1);
      case Write(v) =>
        WalkFromRebrand(cfg, family, src, fields, vals[i := v], i + 1);
      case Fail(e) =>
    }
  }

  /**
   * Two variants that differ only in their error type leave the candidate in
   * the same state, fail on the same inputs, and report the same failure each
   * in its own type.
   */
  lemma OutcomeRebrand(cfg: Config, family: ErrorFamily, src: Source, fields: seq<Field>, vals: seq<Value>)
    requires |vals| == |fields|
    ensures var d1, d2 := Outcome(cfg, src, fields, vals), Outcome(cfg.(family := family), src, fields, vals);
            && d1.values == d2.values
            && d1.err.None? == d2.err.None?
            && (d1.err.Some? ==> d2.err.value == Rebrand(d1.err.value, family))
  {
    WalkFromRebrand(cfg, family, src, fields, vals, 0);
  }

  /**
   * A variant that skips unsettable fields only ever fails with a conversion
   * error of its own family: it never writes a field it may not set.
   */
  lemma {:induction false} CheckedWalkNeverPanics(cfg: Config, src: Source, fields: seq<Field>, vals: seq<Value>, i: nat)
    requires cfg.checkSettable
    requires |vals| == |fields| && i <= |fields|
    ensures var d := WalkFrom(cfg, src, fields, vals, i);
            d.err.Some? ==> OfFamily(d.err.value, cfg.family) && d.err.value.fromType == "string"
    decreases |fields| - i
  {
    if i < |fields| {
      var f := fields[i];
      var tag := TagOf(f, cfg.tagName);
      if tag != "" && cfg.slices && f.typ.kind.SliceKind? {
        var r := CoerceAll(cfg, f.typ.kind.elem, Values(src, tag));
        if r.Failure? {
          CoerceAllFailure(cfg, f.typ.kind.elem, Values(src, tag));
        }
      }
      match Step(cfg, src, f)
      case Skip =>
        CheckedWalkNeverPanics(cfg, src, fields, vals, i + 1);
      case Write(v) =>
        CheckedWalkNeverPanics(cfg, src, fields, vals[i := v], i + 1);
      case Fail(e) =>
    }
  }

  lemma {:induction false} CoerceAllFailure(cfg: Config, elem: Type, entries: seq<string>)
    ensures CoerceAll(cfg, elem, entries).Failure? ==>
              OfFamily(CoerceAll(cfg, elem, entries).error, cfg.family) &&
              CoerceAll(cfg, elem, entries).error.fromType == "string"
  {
    if entries != [] {
      CoerceAllFailure(cfg, elem, entries[1..]);
    }
  }

  /** The slice-building loop: a fresh slice of |entries| elements, filled by index. */
  method BuildSlice(cfg: Config, elem: Type, entries: seq<string>) returns (r: Result<seq<Value>, Error>)
    ensures r == CoerceAll(cfg, elem, entries)
  {
    var sl := new Value[|entries|](_ => ZeroOf(elem));
    for a := 0 to |entries|
      invariant forall k :: 0 <= k < a ==>
                  FieldCoercion(cfg, elem, entries[k]).Success? && sl[k] == FieldCoercion(cfg, elem, entries[k]).value
    {
      var x := FieldCoercion(cfg, elem, entries[a]);
      if x.Failure? {
        CoerceAllFirstFailure(cfg, elem, entries, a);
        return Failure(x.error);
      }
      sl[a] := x.value;
    }
    CoerceAllSucceeds(cfg, elem, entries);
    assert sl[..] == CoerceAll(cfg, elem, entries).value;
    return Success(sl[..]);
  }

  /** The walker proper: updates the candidate's fields in place and returns the error. */
  method Decode(cfg: Config, src: Source, fields: seq<Field>, c: array<Value>) returns (err: Option<Error>)
    requires c.Length == |fields|
    modifies c
    ensures Decoded(c[..], err) == Outcome(cfg, src, fields, old(c[..]))
  {
    if src.count == 0 {
      return None;
    }
    var i := 0;
    while i < |fields|
      invariant 0 <= i <= |fields|
      invariant WalkFrom(cfg, src, fields, c[..], i) == Outcome(cfg, src, fields, old(c[..]))
    {
      var f := fields[i];
      var tag := TagOf(f, cfg.tagName);
      if tag == "" {
        i := i + 1;
        continue;
      }
      var qs := First(src, tag);
      if qs == "" {
        i := i + 1;
        continue;
      }
      if cfg.checkSettable && !f.settable {
        i := i + 1;
        continue;
      }
      var v: Value;
      if cfg.slices && f.typ.kind.SliceKind? {
        var sl := BuildSlice(cfg, f.typ.kind.elem, Values(src, tag));
        if sl.Failure? {
          return Some(sl.error);
        }
        v := SliceV(sl.value);
      } else {
        var x := FieldCoercion(cfg, f.typ, qs);
        if x.Failure? {
          return Some(x.error);
        }
        v := x.value;
      }
      if !f.settable {
        return Some(ReflectPanic(f.name));
      }
      assert Step(cfg, src, f) == Write(v);
      c[i] := v;
      i := i + 1;
    }
    return None;
  }
}
