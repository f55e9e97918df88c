/** JSON values, and the text the printers are meant to produce for them. */
module JsonTree {
  import opened CText

  datatype Member = Member(name: Text, value: Json)

  // A number is the exact decimal mantissa * 10^exponent that the digits denote.
  datatype Json =
    | Null
    | False
    | True
    | Number(mantissa: int, exponent: int)
    | String(text: Text)
    | Array(items: seq<Json>)
    | Object(members: seq<Member>)

  predicate IsInt32(k: int) {
    -0x8000_0000 <= k <= 0x7FFF_FFFF
  }

  // Numbers within int, and strings a C string can hold.
  predicate Printable(v: Json) {
    match v
    case Number(m, e) => e == 0 && IsInt32(m)
    case String(s) => NulFree(s)
    case Array(items) => PrintableItems(items)
    case Object(members) => PrintableMembers(members)
    case _ => true
  }

  predicate PrintableItems(items: seq<Json>) {
    forall i | 0 <= i < |items| :: Printable(items[i])
  }

  predicate PrintableMembers(members: seq<Member>) {
    forall i | 0 <= i < |members| :: NulFree(members[i].name) && Printable(members[i].value)
  }

  predicate NeedsEscape(c: char) {
    c < ' ' || c == '"' || c == '\\'
  }

  function HexDigit(n: nat): char
    requires n < 16
  {
    if n < 10 then ('0' as int + n) as char else ('a' as int + n - 10) as char
  }

  function EscapeChar(c: char): (r: Text)
    ensures r != []
  {
    if !NeedsEscape(c) then [c]
    else match c
      case '\\' => "\\\\"
      case '"' => "\\\""
      case '\U{8}' => "\\b"
      case '\U{C}' => "\\f"
      case '\n' => "\\n"
      case '\r' => "\\r"
      case '\t' => "\\t"
      case _ => "\\u00" + [HexDigit(c as int / 16), HexDigit(c as int % 16)]
  }

  function Escape(s: Text): Text {
    if s == [] then [] else EscapeChar(s[0]) + Escape(s[1..])
  }

  function PrintString(s: Text): Text {
    "\"" + Escape(s) + "\""
  }

  // fmt chooses the indented layout; depth is the nesting level of v.
  function Print(v: Json, depth: nat, fmt: bool): (r: Text)
    requires Printable(v)
    ensures r != []
    decreases v, 1
  {
    match v
    case Null => "null"
    case False => "false"
    case True => "true"
    case Number(m, _) => Decimal(m)
    case String(s) => PrintString(s)
    case Array(items) => "[" + PrintItems(items, depth + 1, fmt) + "]"
    case Object(members) =>
      if members == [] then "{" + (if fmt then "\n" + Tabs(depth - 1) else "") + "}"
      else "{" + (if fmt then "\n" else "") + PrintMembers(members, depth + 1, fmt)
           + (if fmt then Tabs(depth) else "") + "}"
  }

  function PrintItems(items: seq<Json>, depth: nat, fmt: bool): Text
    requires PrintableItems(items)
    decreases items, 0
  {
    if items == [] then []
    else Print(items[0], depth, fmt) + ItemEnd(|items| > 1, fmt) + PrintItems(items[1..], depth, fmt)
  }

  function ItemEnd(more: bool, fmt: bool): Text {
    if !more then "" else if fmt then ", " else ","
  }

  function PrintMembers(members: seq<Member>, depth: nat, fmt: bool): Text
    requires PrintableMembers(members)
    decreases members, 0
  {
    if members == [] then []
    else MemberStart(members[0].name, depth, fmt) + Print(members[0].value, depth, fmt)
         + MemberEnd(|members| > 1, fmt) + PrintMembers(members[1..], depth, fmt)
  }

  function MemberStart(name: Text, depth: nat, fmt: bool): Text {
    (if fmt then Tabs(depth) else "") + PrintString(name) + (if fmt then ":\t" else ":")
  }

  function MemberEnd(more: bool, fmt: bool): Text {
    (if more then "," else "") + (if fmt then "\n" else "")
  }
}
