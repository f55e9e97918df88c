/** The language the parser accepts: each function maps the text at the cursor to a value and the text after it. */
module JsonParse {
  import opened BitOps
  import opened CText
  import opened JsonTree

  // BadEscape marks a \u with a quote, a backslash or the end of the text among the next four characters, or a
  // backslash at the end of the text: there the cursor leaves the literal, and no result is modelled.
  datatype Parse<+T> = Ok(value: T, rest: Text) | Fail | BadEscape

  predicate IsHex(c: char) {
    IsDigit(c) || 'A' <= c <= 'F' || 'a' <= c <= 'f'
  }

  function HexValue(c: char): (n: nat)
    requires IsHex(c)
    ensures n < 16
  {
    if IsDigit(c) then c as int - '0' as int
    else if 'A' <= c <= 'F' then 10 + c as int - 'A' as int
    else 10 + c as int - 'a' as int
  }

  predicate StartsHex4(s: Text) {
    |s| >= 4 && IsHex(s[0]) && IsHex(s[1]) && IsHex(s[2]) && IsHex(s[3])
  }

  function Hex4(s: Text): (n: nat)
    requires StartsHex4(s)
    ensures n < 0x1_0000
  {
    ((HexValue(s[0]) * 16 + HexValue(s[1])) * 16 + HexValue(s[2])) * 16 + HexValue(s[3])
  }

  // Four characters that neither end a literal nor start an escape.
  predicate StartsUnit(s: Text) {
    |s| >= 4 && forall i | 0 <= i < 4 :: IsInside(s[i])
  }

  predicate IsInside(c: char) {
    c != '"' && c != '\\'
  }

  // The code unit behind a \u: anything but four hexadecimal digits counts as zero.
  function Unit(s: Text): (n: nat)
    requires StartsUnit(s)
    ensures n < 0x1_0000
  {
    if StartsHex4(s) then Hex4(s) else 0
  }

  predicate IsHighSurrogate(u: nat) {
    0xD800 <= u <= 0xDBFF
  }

  predicate IsLowSurrogate(u: nat) {
    0xDC00 <= u <= 0xDFFF
  }

  // A nonzero Unicode scalar value.
  predicate IsScalar(u: nat) {
    0 < u <= 0x10_FFFF && !IsHighSurrogate(u) && !IsLowSurrogate(u)
  }

  // Section 3 of RFC 3629.
  function Utf8(u: nat): (r: Text)
    requires u <= 0x10_FFFF
    ensures 1 <= |r| <= 4
    ensures forall i | 0 <= i < |r| :: r[i] as int < 256
  {
    if u < 0x80 then [u as char]
    else if u < 0x800 then [(0xC0 + u / 0x40) as char, (0x80 + u % 0x40) as char]
    else if u < 0x1_0000 then
      [(0xE0 + u / 0x1000) as char, (0x80 + u / 0x40 % 0x40) as char, (0x80 + u % 0x40) as char]
    else
      [(0xF0 + u / 0x4_0000) as char, (0x80 + u / 0x1000 % 0x40) as char,
       (0x80 + u / 0x40 % 0x40) as char, (0x80 + u % 0x40) as char]
  }

  lemma ShiftTwice(u: nat)
    ensures u / 0x40 / 0x40 == u / 0x1000 && u / 0x1000 / 0x40 == u / 0x4_0000
  {}

  // Section 7 of RFC 8259.
  function Combine(high: nat, low: nat): (u: nat)
    requires IsHighSurrogate(high) && IsLowSurrogate(low)
    ensures 0x1_0000 <= u <= 0x10_FFFF
  {
    0x1_0000 + (high - 0xD800) * 0x400 + (low - 0xDC00)
  }

  function Unescape(c: char): char {
    match c
    case 'b' => '\U{8}'
    case 'f' => '\U{C}'
    case 'n' => '\n'
    case 'r' => '\r'
    case 't' => '\t'
    case _ => c
  }

  function Prepend(t: Text, p: Parse<Text>): Parse<Text> {
    match p
    case Ok(v, rest) => Ok(t + v, rest)
    case _ => p
  }

  // The text of a literal, from just after its opening quote. A missing closing quote is accepted.
  function ScanString(s: Text): (p: Parse<Text>)
    ensures p.Ok? ==> |p.rest| <= |s|
    ensures !p.Fail?
  {
    if s == [] then Ok([], [])
    else if s[0] == '"' then Ok([], s[1..])
    else if s[0] != '\\' then Prepend([s[0]], ScanString(s[1..]))
    else if |s| == 1 then BadEscape
    else if s[1] != 'u' then Prepend([Unescape(s[1])], ScanString(s[2..]))
    else if !StartsUnit(s[2..]) then BadEscape
    else
      var u := Unit(s[2..]);
      if IsLowSurrogate(u) || u == 0 then ScanString(s[6..])
      else if !IsHighSurrogate(u) then Prepend(Utf8(u), ScanString(s[6..]))
      else if |s| < 8 || s[6] != '\\' || s[7] != 'u' then ScanString(s[6..])
      else if !StartsUnit(s[8..]) then BadEscape
      else if !IsLowSurrogate(Unit(s[8..])) then ScanString(s[12..])
      else Prepend(Utf8(Combine(u, Unit(s[8..]))), ScanString(s[12..]))
  }

  // The characters a \\u escape takes, with the second half of a surrogate pair.
  function EscapeLength(s: Text): (k: nat)
    requires |s| >= 6 && StartsUnit(s[2..])
    ensures k == 6 || (k == 12 && |s| >= 8)
  {
    if IsHighSurrogate(Unit(s[2..])) && |s| >= 8 && s[6] == '\\' && s[7] == 'u' then 12 else 6
  }

  // The text such an escape denotes.
  function EscapeText(s: Text): Text
    requires |s| >= 6 && StartsUnit(s[2..]) && (EscapeLength(s) == 12 ==> StartsUnit(s[8..]))
  {
    var u := Unit(s[2..]);
    if EscapeLength(s) == 12 then
      if IsLowSurrogate(Unit(s[8..])) then Utf8(Combine(u, Unit(s[8..]))) else []
    else if IsLowSurrogate(u) || IsHighSurrogate(u) || u == 0 then []
    else Utf8(u)
  }

  lemma ScanEscape(s: Text)
    requires |s| >= 6 && s[0] == '\\' && s[1] == 'u' && StartsUnit(s[2..])
    requires EscapeLength(s) == 12 ==> StartsUnit(s[8..])
    ensures ScanString(s) == Prepend(EscapeText(s), ScanString(s[EscapeLength(s)..]))
  {
    var p := ScanString(s[EscapeLength(s)..]);
    assert p.Ok? ==> [] + p.value == p.value;
  }

  function DropIf(s: Text, c: char): (r: Text)
    ensures |r| <= |s|
  {
    if StartsWith(s, c) then s[1..] else s
  }

  // The integer part: a leading zero stands alone, and no digit at all counts as zero.
  function IntPart(s: Text): (r: (int, Text))
    ensures |r.1| <= |s|
  {
    var t := DropIf(s, '0');
    if t != [] && '1' <= t[0] <= '9' then TakeDigits(t, 0) else (0, t)
  }

  function FracPart(s: Text, n: int): (r: (int, int, Text))
    ensures |r.2| <= |s|
  {
    if |s| >= 2 && s[0] == '.' && IsDigit(s[1]) then
      var (m, rest) := TakeDigits(s[1..], n);
      (m, |rest| - |s[1..]|, rest)
    else (n, 0, s)
  }

  function ExpPart(s: Text): (r: (int, Text))
    ensures |r.1| <= |s|
  {
    if s != [] && (s[0] == 'e' || s[0] == 'E') then
      if StartsWith(s[1..], '-') then
        var (e, rest) := TakeDigits(s[2..], 0);
        (-e, rest)
      else
        TakeDigits(DropIf(s[1..], '+'), 0)
    else (0, s)
  }

  function ParseNumber(s: Text): (p: Parse<Json>)
    ensures p.Ok? && p.value.Number? && |p.rest| <= |s|
    ensures s != [] && (s[0] == '-' || IsDigit(s[0])) ==> |p.rest| < |s|
  {
    var (n, s1) := IntPart(DropIf(s, '-'));
    var (m, scale, s2) := FracPart(s1, n);
    var (e, s3) := ExpPart(s2);
    Ok(Number(if StartsWith(s, '-') then -m else m, scale + e), s3)
  }

  function ParseValue(s: Text): (p: Parse<Json>)
    ensures p.Ok? ==> |p.rest| < |s|
    decreases |s|, 1
  {
    if "null" <= s then Ok(Null, s[4..])
    else if "false" <= s then Ok(False, s[5..])
    else if "true" <= s then Ok(True, s[4..])
    else if s == [] then Fail
    else if s[0] == '"' then
      (match ScanString(s[1..])
       case Ok(t, rest) => Ok(String(t), rest)
       case _ => BadEscape)
    else if s[0] == '-' || IsDigit(s[0]) then ParseNumber(s)
    else if s[0] == '[' then
      var t := Skip(s[1..]);
      if StartsWith(t, ']') then Ok(Array([]), t[1..])
      else
        match ParseItems(t)
        case Ok(items, rest) => Ok(Array(items), rest)
        case Fail => Fail
        case BadEscape => BadEscape
    else if s[0] == '{' then
      var t := Skip(s[1..]);
      if StartsWith(t, '}') then Ok(Object([]), t[1..])
      else
        match ParseMembers(t)
        case Ok(members, rest) => Ok(Object(members), rest)
        case Fail => Fail
        case BadEscape => BadEscape
    else Fail
  }

  // One or more items, up to and including the closing bracket.
  function ParseItems(s: Text): (p: Parse<seq<Json>>)
    ensures p.Ok? ==> |p.rest| < |s|
    decreases |s|, 2
  {
    match ParseValue(s)
    case Fail => Fail
    case BadEscape => BadEscape
    case Ok(v, rest) =>
      var t := Skip(rest);
      if StartsWith(t, ',') then
        (match ParseItems(Skip(t[1..]))
         case Ok(items, rest') => Ok([v] + items, rest')
         case q => q)
      else if StartsWith(t, ']') then Ok([v], t[1..])
      else Fail
  }

  function ParseMembers(s: Text): (p: Parse<seq<Member>>)
    ensures p.Ok? ==> |p.rest| < |s|
    decreases |s|, 2
  {
    match ParseMember(s)
    case Fail => Fail
    case BadEscape => BadEscape
    case Ok(m, rest) =>
      var t := Skip(rest);
      if StartsWith(t, ',') then
        (match ParseMembers(Skip(t[1..]))
         case Ok(members, rest') => Ok([m] + members, rest')
         case q => q)
      else if StartsWith(t, '}') then Ok([m], t[1..])
      else Fail
  }

  function ParseMember(s: Text): (p: Parse<Member>)
    ensures p.Ok? ==> |p.rest| < |s|
    decreases |s|, 1
  {
    if !StartsWith(s, '"') then Fail
    else match ScanString(s[1..])
      case Fail => Fail
      case BadEscape => BadEscape
      case Ok(name, rest) =>
        var t := Skip(rest);
        if !StartsWith(t, ':') then Fail
        else match ParseValue(Skip(t[1..]))
          case Ok(v, rest') => Ok(Member(name, v), rest')
          case Fail => Fail
          case BadEscape => BadEscape
  }

  // cJSON_ParseWithOpts: with strict, only blanks may follow the value.
  function ParseText(s: Text, strict: bool): Parse<Json> {
    var p := ParseValue(Skip(s));
    if p.Ok? && strict then
      if Skip(p.rest) == [] then Ok(p.value, []) else Fail
    else p
  }

  // Single steps of the grammar.
  lemma ValueIsNumber(s: Text)
    requires s != [] && (s[0] == '-' || IsDigit(s[0]))
    ensures ParseValue(s) == ParseNumber(s)
  {}

  lemma ValueIsArray(s: Text, items: seq<Json>, r: Text)
    requires StartsWith(s, '[')
    requires var t := Skip(s[1..]);
             if items == [] then StartsWith(t, ']') && t[1..] == r
             else !StartsWith(t, ']') && ParseItems(t) == Ok(items, r)
    ensures ParseValue(s) == Ok(Array(items), r)
  {}

  lemma ValueIsObject(s: Text, members: seq<Member>, r: Text)
    requires StartsWith(s, '{')
    requires var t := Skip(s[1..]);
             if members == [] then StartsWith(t, '}') && t[1..] == r
             else !StartsWith(t, '}') && ParseMembers(t) == Ok(members, r)
    ensures ParseValue(s) == Ok(Object(members), r)
  {}

  lemma ItemsStep(s: Text, v: Json, rest: Text, items: seq<Json>, r: Text)
    requires ParseValue(s) == Ok(v, rest)
    requires var t := Skip(rest);
             if items == [] then StartsWith(t, ']') && t[1..] == r
             else StartsWith(t, ',') && ParseItems(Skip(t[1..])) == Ok(items, r)
    ensures ParseItems(s) == Ok([v] + items, r)
  {
    assert items == [] ==> [v] + items == [v];
  }

  lemma MembersStep(s: Text, m: Member, rest: Text, members: seq<Member>, r: Text)
    requires ParseMember(s) == Ok(m, rest)
    requires var t := Skip(rest);
             if members == [] then StartsWith(t, '}') && t[1..] == r
             else StartsWith(t, ',') && ParseMembers(Skip(t[1..])) == Ok(members, r)
    ensures ParseMembers(s) == Ok([m] + members, r)
  {
    assert members == [] ==> [m] + members == [m];
  }
}
