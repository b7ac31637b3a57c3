/**
 * What the walkers see of a Go struct through package reflect: one descriptor
 * per field, in declaration order (its name, type, struct tags and whether it
 * may be set), and the field's current value. A candidate is a fixed number of
 * such values, updated in place.
 */
module Reflection {
  import opened Wrappers
  import opened Errors

  /** The width of a signed integer kind: int8, int16, int32, int64 (and int, 64 bits). */
  datatype IntWidth = W8 | W16 | W32 | W64

  function Modulus(w: IntWidth): (m: nat)
    ensures m >= 2 && m % 2 == 0
  {
    match w
    case W8 => 0x100
    case W16 => 0x1_0000
    case W32 => 0x1_0000_0000
    case W64 => 0x1_0000_0000_0000_0000
  }

  /**
   * reflect.Value.SetInt stores an int64 into a field of width `w` by two's
   * complement truncation: the result lies in the field's range, agrees with
   * `x` modulo 2^bits, and is `x` itself when `x` already fits.
   */
  function Truncate(w: IntWidth, x: int): (r: int)
    ensures -(Modulus(w) / 2) <= r < Modulus(w) / 2
    ensures (x - r) % Modulus(w) == 0
    ensures -(Modulus(w) / 2) <= x < Modulus(w) / 2 ==> r == x
  {
    var m := Modulus(w);
    var h := m / 2;
    var r := (x + h) % m - h;
    assert x - r == (x + h) / m * m;
    r
  }

  /** reflect.Kind, with the integer kinds grouped by width and the kinds no walker supports as OtherKind. */
  datatype Kind =
    | IntKind(width: IntWidth)
    | FloatKind
    | StringKind
    | BoolKind
    | SliceKind(elem: Type)
    | OtherKind

  /** A Go type: its name (reflect.Type.Name, empty for unnamed types such as []int) and kind. */
  datatype Type = Type(name: string, kind: Kind)

  /** A field value. Floats are kept as the bits the float parser produced. */
  datatype Value =
    | IntV(i: int)
    | FloatV(bits: bv64)
    | StrV(s: string)
    | BoolV(b: bool)
    | SliceV(elems: seq<Value>)
    | OpaqueV(id: nat)

  /** A struct field descriptor; `settable` is reflect.Value.CanSet (the field is exported). */
  datatype Field = Field(name: string, typ: Type, tags: map<string, string>, settable: bool)

  /** reflect.StructTag.Get: the tag value under `key`, or "" when the field has none. */
  function TagOf(f: Field, key: string): string
  {
    if key in f.tags then f.tags[key] else ""
  }

  /** The zero value reflect.MakeSlice fills a new slice with. */
  function ZeroOf(t: Type): Value
  {
    match t.kind
    case IntKind(_) => IntV(0)
    case FloatKind => FloatV(0)
    case StringKind => StrV("")
    case BoolKind => BoolV(false)
    case SliceKind(_) => SliceV([])
    case OtherKind => OpaqueV(0)
  }

  /** What a decoder leaves behind: the candidate's field values and the error it returned. */
  datatype Decoded = Decoded(values: seq<Value>, err: Option<Error>)
}
