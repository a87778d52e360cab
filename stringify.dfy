// The host's compact serializer, JSON.stringify without indentation
// (section 25.5.2 of ECMA-262, 2023 edition), over the model's values.
// The simplifier uses only the UTF-16 length of its output.

module Stringify {
  import opened JsonValue

  /** The decimal digits of a natural number, most significant first. */
  function NatToString(n: nat): (s: string)
    ensures |s| >= 1
    ensures forall i :: 0 <= i < |s| ==> '0' <= s[i] <= '9'
    decreases n
  {
    var d := [(('0' as int) + n % 10) as char];
    if n < 10 then d else NatToString(n / 10) + d
  }

  /** Number::toString for an integral value below 10^21. */
  function IntToString(n: int): string {
    if n < 0 then "-" + NatToString(-n) else NatToString(n)
  }

  /** A lower-case hexadecimal digit. */
  function HexDigit(d: nat): char
    requires d < 16
  {
    if d < 10 then (('0' as int) + d) as char else (('a' as int) + d - 10) as char
  }

  /** The JSON text of one code point inside a string literal
      (QuoteJSONString): the seven short escapes, \u00XX for the other
      control characters, the code point itself otherwise. */
  function EscapeChar(c: char): string {
    if c == '\U{8}' then "\\b"
    else if c == '\t' then "\\t"
    else if c == '\n' then "\\n"
    else if c == '\U{C}' then "\\f"
    else if c == '\r' then "\\r"
    else if c == '"' then "\\\""
    else if c == '\\' then "\\\\"
    else if (c as int) < 0x20 then "\\u00" + [HexDigit(c as int / 16), HexDigit(c as int % 16)]
    else [c]
  }

  function EscapeString(s: string): string {
    if |s| == 0 then "" else EscapeChar(s[0]) + EscapeString(s[1..])
  }

  function Quote(s: string): string {
    "\"" + EscapeString(s) + "\""
  }

  /** The compact serialization of a value. */
  function Serialize(v: Json): string {
    match v
    case JNull => "null"
    case JBool(b) => if b then "true" else "false"
    case JNum(n) => IntToString(n)
    case JStr(s) => Quote(s)
    case JArr(es) => "[" + SerializeElems(es) + "]"
    case JObj(ms) => "{" + SerializeMembers(ms) + "}"
  }

  /** The elements of an array, separated by commas. */
  function SerializeElems(es: seq<Json>): string {
    if |es| == 0 then ""
    else if |es| == 1 then Serialize(es[0])
    else Serialize(es[0]) + "," + SerializeElems(es[1..])
  }

  /** The members of an object as "key":value, separated by commas. */
  function SerializeMembers(ms: seq<(string, Json)>): string {
    if |ms| == 0 then ""
    else
      var m := ms[0];
      assert m.1 < m;
      var one := Quote(m.0) + ":" + Serialize(m.1);
      if |ms| == 1 then one else one + "," + SerializeMembers(ms[1..])
  }

  /** The number of UTF-16 code units that encode a string, which is what
      a JavaScript string's length counts. */
  function Utf16Length(s: string): nat {
    if |s| == 0 then 0
    else (if (s[0] as int) > 0xFFFF then 2 else 1) + Utf16Length(s[1..])
  }

  /** Without code points outside the Basic Multilingual Plane the UTF-16
      length is the number of code points. */
  lemma {:induction false} Utf16LengthInBmp(s: string)
    requires forall i :: 0 <= i < |s| ==> (s[i] as int) <= 0xFFFF
    ensures Utf16Length(s) == |s|
  {
    if |s| > 0 {
      Utf16LengthInBmp(s[1..]);
    }
  }

  /** JSON.stringify(v).length: the size tiebreak of the simplifier. */
  function Size(v: Json): nat {
    Utf16Length(Serialize(v))
  }
}
