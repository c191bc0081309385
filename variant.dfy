/** Fixed-width numbers of the program: Rust's i64 and u64, and f64. */
module Numbers {
  import opened Json

  type Int64 = i: int | I64Min <= i < I64Bound
  type UInt64 = u: int | 0 <= u < U64Bound

  /** An IEEE-754 binary64 value: a finite value (the sign of zero is not kept),
      an infinity, or NaN. */
  datatype Float64 = Finite(r: real) | PosInf | NegInf | NaN
}

/** The value a MySQL client library hands back for one column (the `mysql`
    crate's `Value`). */
module MySql {
  import opened Utf8
  import opened Numbers

  datatype Value =
    | NULL
    | Bytes(bytes: seq<Byte>)
    | Int(i: Int64)
    | UInt(u: UInt64)
    | Float(f: Float64)
    | Double(d: Float64)
    | Date(year: nat, month: nat, day: nat, hour: nat, minute: nat, second: nat, micros: nat)
    | Time(negative: bool, days: nat, hours: nat, minutes: nat, seconds: nat, micros: nat)
}

/** `Variant`, the four-kind value every record field holds, with its conversions
    to and from JSON values and MySQL values, its equality and its text form. */
module Variants {
  import opened Wrappers
  import opened Text
  import opened Json
  import opened Utf8
  import opened Numbers
  import MySql

  datatype Variant = Null | String(s: string) | Float(f: Float64) | Int(i: Int64)

  const UnsupportedValue := "Unsupported value type"
  const UnwrapNone := "called `Option::unwrap()` on a `None` value"

  // ---------------------------------------------------------------------------
  // JSON values
  // ---------------------------------------------------------------------------

  /** `Variant::from_serde_value`: null, strings and numbers convert; a number
      that is neither a float nor an i64 fails the `as_i64` unwrap; booleans,
      arrays and objects are unsupported. */
  function FromSerdeValue(v: Json): (r: Result<Variant>)
    ensures r.Ok? <==> v.JNull? || v.JString? || v.JFloat? || (v.JInt? && I64Min <= v.i < I64Bound)
  {
    match v
    case JNull => Ok(Null)
    case JString(s) => Ok(String(s))
    case JFloat(x) => Ok(Float(Finite(x)))
    case JInt(i) => if I64Min <= i < I64Bound then Ok(Int(i)) else Err(UnwrapNone)
    case _ => Err(UnsupportedValue)
  }

  /** `Variant::to_serde_value`: serde_json has no number for NaN or the
      infinities, so `SerdeNumber::from_f64(..).unwrap()` fails on them. */
  function ToSerdeValue(v: Variant): (r: Result<Json>)
    ensures r.Ok? <==> !(v.Float? && !v.f.Finite?)
  {
    match v
    case Null => Ok(JNull)
    case String(s) => Ok(JString(s))
    case Int(i) => Ok(JInt(i))
    case Float(f) => if f.Finite? then Ok(JFloat(f.r)) else Err(UnwrapNone)
  }

  predicate Serializable(v: Variant) {
    !(v.Float? && !v.f.Finite?)
  }

  /** Every value serde_json can hold converts to JSON and back unchanged. */
  lemma SerdeRoundTrip(v: Variant)
    requires Serializable(v)
    ensures ToSerdeValue(v).Ok? && FromSerdeValue(ToSerdeValue(v).value) == Ok(v)
  {
  }

  /** Converting a JSON scalar to a variant and back gives the same JSON. */
  lemma SerdeRoundTripJson(v: Json)
    requires FromSerdeValue(v).Ok?
    ensures ToSerdeValue(FromSerdeValue(v).value) == Ok(v)
  {
  }

  // ---------------------------------------------------------------------------
  // MySQL values
  // ---------------------------------------------------------------------------

  /** `u as i64`: the same bits read as a signed integer. */
  function WrapToI64(u: UInt64): (i: Int64)
    ensures (i - u) % U64Bound == 0
    ensures u < I64Bound ==> i == u
  {
    if u < I64Bound then u else u - U64Bound
  }

  /** `Variant::from_mysql_value`. Bytes must be well-formed UTF-8
      (`String::from_utf8(..).unwrap()`); f32 widens to f64 exactly. */
  function FromMySqlValue(m: MySql.Value): (r: Result<Variant>)
    ensures r.Ok? <==> !(m.Date? || m.Time? || (m.Bytes? && Decode(m.bytes).None?))
  {
    match m
    case NULL => Ok(Null)
    case Bytes(bs) =>
      (match Decode(bs)
       case Some(s) => Ok(String(s))
       case None => Err("called `Result::unwrap()` on an `Err` value: FromUtf8Error"))
    case Int(i) => Ok(Int(i))
    case UInt(u) => Ok(Int(WrapToI64(u)))
    case Float(f) => Ok(Float(f))
    case Double(d) => Ok(Float(d))
    case _ => Err(UnsupportedValue)
  }

  /** `Variant::to_mysql_value`. */
  function ToMySqlValue(v: Variant): MySql.Value {
    match v
    case Null => MySql.NULL
    case String(s) => MySql.Bytes(Encode(s))
    case Int(i) => MySql.Int(i)
    case Float(f) => MySql.Double(f)
  }

  /** Every variant survives the trip through a MySQL value. */
  lemma MySqlRoundTrip(v: Variant)
    ensures FromMySqlValue(ToMySqlValue(v)) == Ok(v)
  {
    if v.String? { DecodeEncode(v.s); }
  }

  /** Unsigned column values at or above 2^63 come back negative. */
  lemma UnsignedWraps()
    ensures FromMySqlValue(MySql.UInt(U64Bound - 1)) == Ok(Int(-1))
    ensures FromMySqlValue(MySql.UInt(I64Bound)) == Ok(Int(I64Min))
  {
  }

  // ---------------------------------------------------------------------------
  // Equality (`PartialEq for Variant`)
  // ---------------------------------------------------------------------------

  /** IEEE equality of binary64 values: NaN equals nothing. */
  predicate FloatEq(a: Float64, b: Float64) {
    match (a, b)
    case (Finite(x), Finite(y)) => x == y
    case (PosInf, PosInf) => true
    case (NegInf, NegInf) => true
    case _ => false
  }

  predicate Eq(a: Variant, b: Variant) {
    match (a, b)
    case (Null, Null) => true
    case (String(s1), String(s2)) => s1 == s2
    case (Int(i1), Int(i2)) => i1 == i2
    case (Float(f1), Float(f2)) => FloatEq(f1, f2)
    case _ => false
  }

  predicate SameKind(a: Variant, b: Variant) {
    (a.Null? && b.Null?) || (a.String? && b.String?) || (a.Int? && b.Int?) || (a.Float? && b.Float?)
  }

  /** Values of different kinds are never equal (an `Int` is not a `Float` of the
      same magnitude); values of one kind compare by payload, where NaN is equal
      to nothing. */
  lemma EqIsKindSensitive(a: Variant, b: Variant)
    ensures Eq(a, b) ==> SameKind(a, b)
    ensures SameKind(a, b) && !a.Float? ==> (Eq(a, b) <==> a == b)
    ensures a.Float? && b.Float? ==> (Eq(a, b) <==> a == b && a.f != NaN)
  {
  }

  lemma EqSymmetric(a: Variant, b: Variant)
    ensures Eq(a, b) <==> Eq(b, a)
  {
  }

  lemma IntIsNotFloat(i: Int64)
    ensures !Eq(Int(i), Float(Finite(i as real)))
  {
  }

  // ---------------------------------------------------------------------------
  // Text form (`Display for Variant`): the JSON text of `to_serde_value`
  // ---------------------------------------------------------------------------

  function Display(v: Variant): (r: Result<string>)
    ensures r.Ok? <==> Serializable(v)
  {
    match ToSerdeValue(v)
    case Ok(j) => Ok(Render(j))
    case Err(e) => Err(e)
  }

  /** Null renders as `null`, strings quoted and escaped, integers in plain decimal. */
  lemma DisplayForms(v: Variant)
    ensures v.Null? ==> Display(v) == Ok("null")
    ensures v.String? ==> Display(v) == Ok("\"" + Escape(v.s) + "\"")
    ensures v.Int? ==> Display(v) == Ok(IntText(v.i))
    ensures v.Float? ==> (Display(v).Ok? <==> v.f.Finite?)
  {
  }

  /** Display text never holds a character below U+0020, so never a line break. */
  lemma DisplayPrintable(v: Variant)
    requires Serializable(v)
    ensures Printable(Display(v).value)
  {
    match v
    case String(s) => EscapePrintable(s);
    case Int(i) => IntTextRoundTrip(i);
    case Float(f) =>
      if f.r == f.r.Floor as real && -1.0e16 < f.r < 1.0e16 {
        IntTextRoundTrip(f.r.Floor);
      }
    case Null =>
  }

  /** The text names the value: two values other than floats with the same
      text are the same value. */
  lemma {:induction false} DisplayInjective(a: Variant, b: Variant)
    requires !a.Float? && !b.Float?
    requires Display(a) == Display(b)
    ensures a == b
  {
    var t := Display(a).value;
    if a.Int? { IntTextRoundTrip(a.i); }
    if b.Int? { IntTextRoundTrip(b.i); }
    if a.String? && b.String? {
      assert Escape(a.s) == t[1..|t| - 1] == Escape(b.s);
      UnescapeEscape(a.s);
      UnescapeEscape(b.s);
    } else if a.Int? && b.Int? {
      assert ParseIntText(t) == a.i == b.i;
    }
  }
}
