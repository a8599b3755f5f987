/** Decoded cell values, as `serde_json::Value` has them, and their JSON text. */
module Json {
  import opened Text

  predicate NumberAt(s: string, i: nat)
    requires i < |s|
  {
    || IsDigit(s[i]) || s[i] == '.' || s[i] == '+' || s[i] == 'e' || s[i] == 'E'
    || (s[i] == '-' && i + 1 < |s| && IsDigit(s[i + 1]))
  }

  predicate IsNumberText(s: string) { s != [] && forall i :: 0 <= i < |s| ==> NumberAt(s, i) }

  /** A number as it is printed, whose value is of no concern here. */
  type NumberText = s: string | IsNumberText(s) witness "0"

  /** The keys of an object are distinct. */
  datatype Json =
    | Null
    | Bool(b: bool)
    | Number(text: NumberText)
    | Str(s: string)
    | Arr(items: seq<Json>)
    | Obj(fields: seq<Member>)

  datatype Member = Member(key: string, value: Json)

  function Get(fields: seq<Member>, key: string): Option<Json> {
    if fields == [] then None
    else if fields[0].key == key then Some(fields[0].value)
    else Get(fields[1..], key)
  }

  /** The base64 text of an object marked `"__type": "bytes"`: a value decoded from binary, or a user's own document
      of that shape, which can hold any text. */
  function BytesMarker(v: Json): Option<string> {
    if v.Obj? && Get(v.fields, "__type") == Some(Str("bytes")) then
      match Get(v.fields, "b64")
      case Some(Str(b64)) => Some(b64)
      case _ => None
    else None
  }

  function LowerHex(n: nat): char
    requires n < 16
  {
    "0123456789abcdef"[n]
  }

  function HexOf(bytes: seq<Byte>): string {
    if bytes == [] then [] else [LowerHex(bytes[0] / 16), LowerHex(bytes[0] % 16)] + HexOf(bytes[1..])
  }

  function EscapeChar(c: char): string {
    if c == '"' then "\\\"" else if c == '\\' then "\\\\"
    else if c == '\n' then "\\n" else if c == '\r' then "\\r" else if c == '\t' then "\\t"
    else if c == '\U{0008}' then "\\b" else if c == '\U{000C}' then "\\f"
    else if c < ' ' then "\\u00" + [LowerHex(c as int / 16), LowerHex(c as int % 16)]
    else [c]
  }

  function EscapeAll(s: string): string {
    if s == [] then [] else EscapeChar(s[0]) + EscapeAll(s[1..])
  }

  /** `Value::to_string`. */
  function JsonText(v: Json): string
    decreases v
  {
    match v
    case Null => "null"
    case Bool(b) => if b then "true" else "false"
    case Number(text) => text
    case Str(s) => "\"" + EscapeAll(s) + "\""
    case Arr(items) => "[" + ItemsText(items) + "]"
    case Obj(fields) => "{" + FieldsText(fields) + "}"
  }

  function ItemsText(items: seq<Json>): string
    decreases items
  {
    if items == [] then []
    else JsonText(items[0]) + (if |items| == 1 then [] else "," + ItemsText(items[1..]))
  }

  function FieldsText(fields: seq<Member>): string
    decreases fields
  {
    if fields == [] then []
    else
      "\"" + EscapeAll(fields[0].key) + "\":" + JsonText(fields[0].value)
      + (if |fields| == 1 then [] else "," + FieldsText(fields[1..]))
  }

  // ------------------------------ base64 --------------------------------

  function Sextet(c: char): (v: Option<nat>)
    ensures v.Some? ==> v.value < 64
  {
    if 'A' <= c <= 'Z' then Some(c as int - 'A' as int)
    else if 'a' <= c <= 'z' then Some(c as int - 'a' as int + 26)
    else if '0' <= c <= '9' then Some(c as int - '0' as int + 52)
    else if c == '+' then Some(62)
    else if c == '/' then Some(63)
    else None
  }

  /** The standard alphabet, with padding and no stray bits. */
  function Base64Decode(s: string): Option<seq<Byte>>
    decreases |s|
  {
    if s == [] then Some([])
    else if |s| < 4 then None
    else
      match (Sextet(s[0]), Sextet(s[1]))
      case (Some(a), Some(b)) =>
        if |s| == 4 && s[2] == '=' && s[3] == '=' then
          if b % 16 == 0 then Some([a * 4 + b / 16]) else None
        else (
          match (Sextet(s[2]), Sextet(s[3]))
          case (Some(c), None) =>
            if |s| == 4 && s[3] == '=' && c % 4 == 0 then Some([a * 4 + b / 16, b % 16 * 16 + c / 4]) else None
          case (Some(c), Some(d)) => (
            match Base64Decode(s[4..])
            case None => None
            case Some(rest) => Some([a * 4 + b / 16, b % 16 * 16 + c / 4, c % 4 * 64 + d] + rest))
          case (None, _) => None)
      case _ => None
  }
}
