/** The JSON document model that pipeline, template and assertion documents are
    read from (serde_json's `Value`), its accessors, and its compact text form as
    serde_json prints it (RFC 8259). */
module Json {
  import opened Wrappers
  import opened Text

  /** A JSON value. Objects keep their entries in the map's iteration order.
      serde_json stores integer numbers as i64 or u64, so a `JInt` it produces lies
      in [-2^63, 2^64); numbers written with a fraction or exponent are `JFloat`. */
  datatype Json =
    | JNull
    | JBool(b: bool)
    | JInt(i: int)
    | JFloat(r: real)
    | JString(s: string)
    | JArray(items: seq<Json>)
    | JObject(entries: seq<(string, Json)>)

  const I64Min: int := -0x8000_0000_0000_0000
  const I64Bound: int := 0x8000_0000_0000_0000
  const U64Bound: int := 0x1_0000_0000_0000_0000

  const Backspace: char := 8 as char
  const FormFeed: char := 12 as char

  // ---------------------------------------------------------------------------
  // Objects as association lists
  // ---------------------------------------------------------------------------

  function Keys(entries: seq<(string, Json)>): (ks: set<string>)
    ensures forall k :: k in ks <==> exists i :: 0 <= i < |entries| && entries[i].0 == k
  {
    set i | 0 <= i < |entries| :: entries[i].0
  }

  lemma KeysAppend(entries: seq<(string, Json)>, e: (string, Json))
    ensures Keys(entries + [e]) == Keys(entries) + {e.0}
  {
    var xs := entries + [e];
    assert xs[|entries|] == e;
    forall k | k in Keys(entries) ensures k in Keys(xs) {
      var i :| 0 <= i < |entries| && entries[i].0 == k;
      assert xs[i] == entries[i];
    }
  }

  predicate DistinctKeys(entries: seq<(string, Json)>) {
    forall i, j :: 0 <= i < j < |entries| ==> entries[i].0 != entries[j].0
  }

  /** The value of the first entry named `key`. */
  function Lookup(entries: seq<(string, Json)>, key: string): (r: Option<Json>)
    ensures r.None? <==> key !in Keys(entries)
    ensures r.Some? ==> exists i :: 0 <= i < |entries| && entries[i] == (key, r.value)
    decreases |entries|
  {
    if entries == [] then None
    else if entries[0].0 == key then Some(entries[0].1)
    else
      var r := Lookup(entries[1..], key);
      assert forall i :: 0 <= i < |entries| - 1 ==> entries[1..][i] == entries[i + 1];
      r
  }

  // ---------------------------------------------------------------------------
  // serde_json accessors
  // ---------------------------------------------------------------------------

  /** `Value::get(key)`: `None` when `v` is not an object or lacks `key`. */
  function Get(v: Json, key: string): Option<Json> {
    if v.JObject? then Lookup(v.entries, key) else None
  }

  /** `v[key]`: `Null` when `v` is not an object or lacks `key` (never panics). */
  function Index(v: Json, key: string): (r: Json)
    ensures Get(v, key).Some? ==> r == Get(v, key).value
    ensures Get(v, key).None? ==> r == JNull
  {
    match Get(v, key)
    case Some(x) => x
    case None => JNull
  }

  function AsStr(v: Json): Option<string> {
    if v.JString? then Some(v.s) else None
  }

  function AsArray(v: Json): Option<seq<Json>> {
    if v.JArray? then Some(v.items) else None
  }

  function AsObject(v: Json): Option<seq<(string, Json)>> {
    if v.JObject? then Some(v.entries) else None
  }

  /** `Value::as_u64`: integer numbers in [0, 2^64) only. */
  function AsU64(v: Json): Option<nat> {
    if v.JInt? && 0 <= v.i < U64Bound then Some(v.i) else None
  }

  /** `Value::as_i64`: integer numbers in [-2^63, 2^63) only. */
  function AsI64(v: Json): Option<int> {
    if v.JInt? && I64Min <= v.i < I64Bound then Some(v.i) else None
  }

  // ---------------------------------------------------------------------------
  // String escaping as serde_json writes it (section 7 of RFC 8259): quotation
  // mark, reverse solidus and characters below U+0020 are escaped, with the short
  // forms \b \t \n \f \r where they exist and \u00xx (lower-case hex) otherwise;
  // every other character is written as itself.
  // ---------------------------------------------------------------------------

  function HexDigit(d: nat): (c: char)
    requires d < 16
    ensures '0' <= c <= 'f'
  {
    "0123456789abcdef"[d]
  }

  function EscapeChar(c: char): string {
    if c == '"' then "\\\""
    else if c == '\\' then "\\\\"
    else if c == Backspace then "\\b"
    else if c == '\t' then "\\t"
    else if c == '\n' then "\\n"
    else if c == FormFeed then "\\f"
    else if c == '\r' then "\\r"
    else if (c as int) < 0x20 then "\\u00" + [HexDigit(c as int / 16), HexDigit(c as int % 16)]
    else [c]
  }

  function Escape(s: string): string
    decreases |s|
  {
    if s == [] then "" else EscapeChar(s[0]) + Escape(s[1..])
  }

  /** Text with no character below U+0020 (so no line break). */
  predicate Printable(s: string) {
    forall k :: 0 <= k < |s| ==> s[k] >= ' '
  }

  /** Escaping leaves no character below U+0020 behind. */
  lemma {:induction false} EscapePrintable(s: string)
    ensures Printable(Escape(s))
    decreases |s|
  {
    if s != [] {
      EscapePrintable(s[1..]);
      var e := EscapeChar(s[0]);
      assert Printable(e);
      assert Escape(s) == e + Escape(s[1..]);
    }
  }

  function Quote(s: string): string {
    "\"" + Escape(s) + "\""
  }

  predicate IsHex(c: char) {
    '0' <= c <= '9' || 'a' <= c <= 'f' || 'A' <= c <= 'F'
  }

  function HexValue(c: char): (d: nat)
    requires IsHex(c)
    ensures d < 16
  {
    if '0' <= c <= '9' then c as int - '0' as int
    else if 'a' <= c <= 'f' then c as int - 'a' as int + 10
    else c as int - 'A' as int + 10
  }

  /** Reading the body of a JSON string back (section 7 of RFC 8259; a \u escape
      must name a code point outside the surrogate range). */
  function Unescape(s: string): Option<string>
    decreases |s|
  {
    if s == [] then Some("")
    else if s[0] == '\\' then
      if |s| >= 2 && s[1] in "\"\\/bfnrt" then
        var c := match s[1]
          case 'b' => Backspace
          case 'f' => FormFeed
          case 'n' => '\n'
          case 'r' => '\r'
          case 't' => '\t'
          case _ => s[1];
        match Unescape(s[2..])
        case Some(rest) => Some([c] + rest)
        case None => None
      else if |s| >= 6 && s[1] == 'u' && IsHex(s[2]) && IsHex(s[3]) && IsHex(s[4]) && IsHex(s[5]) then
        var code := HexValue(s[2]) * 4096 + HexValue(s[3]) * 256 + HexValue(s[4]) * 16 + HexValue(s[5]);
        if 0xD800 <= code < 0xE000 then None
        else
          match Unescape(s[6..])
          case Some(rest) => Some([code as char] + rest)
          case None => None
      else None
    else if s[0] == '"' || (s[0] as int) < 0x20 then None
    else
      match Unescape(s[1..])
      case Some(rest) => Some([s[0]] + rest)
      case None => None
  }

  function Prepend(c: char, o: Option<string>): Option<string> {
    match o
    case Some(rest) => Some([c] + rest)
    case None => None
  }

  lemma UnescapeShort(c: char, t: string)
    requires c == '"' || c == '\\' || c == Backspace || c == '\t' || c == '\n' || c == FormFeed || c == '\r'
    ensures Unescape(EscapeChar(c) + t) == Prepend(c, Unescape(t))
  {
    var e := EscapeChar(c) + t;
    assert e[0] == '\\' && e[1] in "\"\\/bfnrt";
    assert e[2..] == t;
  }

  lemma UnescapeControl(c: char, t: string)
    requires (c as int) < 0x20
    requires !(c == Backspace || c == '\t' || c == '\n' || c == FormFeed || c == '\r')
    ensures Unescape(EscapeChar(c) + t) == Prepend(c, Unescape(t))
  {
    var e := EscapeChar(c) + t;
    var hi, lo := c as int / 16, c as int % 16;
    assert e[..6] == "\\u00" + [HexDigit(hi), HexDigit(lo)];
    assert e[0] == '\\' && e[1] == 'u' && e[2] == '0' && e[3] == '0';
    assert e[4] == HexDigit(hi) && e[5] == HexDigit(lo);
    assert HexValue(HexDigit(hi)) == hi;
    assert HexValue(HexDigit(lo)) == lo;
    assert e[6..] == t;
  }

  lemma UnescapePlain(c: char, t: string)
    requires !(c == '"' || c == '\\') && (c as int) >= 0x20
    ensures Unescape(EscapeChar(c) + t) == Prepend(c, Unescape(t))
  {
    var e := EscapeChar(c) + t;
    assert e[0] == c && e[1..] == t;
  }

  /** Escaping loses nothing: the escaped text reads back as the original string. */
  lemma {:induction false} UnescapeEscape(s: string)
    ensures Unescape(Escape(s)) == Some(s)
    decreases |s|
  {
    if s != [] {
      UnescapeEscape(s[1..]);
      var c, t := s[0], Escape(s[1..]);
      if c == '"' || c == '\\' || c == Backspace || c == '\t' || c == '\n' || c == FormFeed || c == '\r' {
        UnescapeShort(c, t);
      } else if (c as int) < 0x20 {
        UnescapeControl(c, t);
      } else {
        UnescapePlain(c, t);
      }
      assert [s[0]] + s[1..] == s;
    }
  }

  // ---------------------------------------------------------------------------
  // Compact JSON text (serde_json's `Display` for `Value`)
  // ---------------------------------------------------------------------------

  /** Text of a finite float. serde_json prints floats with the shortest
      round-tripping decimal (ryu); for integral values below 10^16 in magnitude
      that is the integer followed by ".0". Other values are not rendered
      digit for digit by this model. */
  function FloatText(r: real): string {
    if r == r.Floor as real && -1.0e16 < r < 1.0e16 then IntText(r.Floor) + ".0"
    else "<float>"
  }

  function Render(v: Json): string
    decreases v
  {
    match v
    case JNull => "null"
    case JBool(b) => if b then "true" else "false"
    case JInt(i) => IntText(i)
    case JFloat(r) => FloatText(r)
    case JString(s) => Quote(s)
    case JArray(items) =>
      "[" + Join(seq(|items|, k requires 0 <= k < |items| => Render(items[k])), ",") + "]"
    case JObject(entries) =>
      "{" + Join(seq(|entries|, k requires 0 <= k < |entries| =>
                   Quote(entries[k].0) + ":" + Render(entries[k].1)), ",") + "}"
  }
}
