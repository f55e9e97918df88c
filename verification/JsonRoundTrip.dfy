/** Parsing what was printed gives the value back. */
module JsonRoundTrip {
  import opened CText
  import opened JsonTree
  import opened JsonParse

  // No character of r can be taken for the continuation of a number.
  predicate EndsNumber(r: Text) {
    r == [] || !(IsDigit(r[0]) || r[0] == '.' || r[0] == 'e' || r[0] == 'E')
  }

  lemma HexDigitValue(n: nat)
    requires n < 16
    ensures IsHex(HexDigit(n)) && HexValue(HexDigit(n)) == n
  {}

  lemma ScanEscapedChar(c: char, t: Text)
    requires c != '\0'
    ensures ScanString(EscapeChar(c) + t) == Prepend([c], ScanString(t))
  {
    hide ScanString, Prepend;
    if !NeedsEscape(c) {
      ScanPlainChar(c, t);
    } else {
      match c {
        case '\\' => ScanShort('\\', t);
        case '"' => ScanShort('"', t);
        case '\U{8}' => ScanShort('b', t);
        case '\U{C}' => ScanShort('f', t);
        case '\n' => ScanShort('n', t);
        case '\r' => ScanShort('r', t);
        case '\t' => ScanShort('t', t);
        case _ => ScanControlChar(c, t);
      }
    }
  }

  lemma ScanPlainChar(c: char, t: Text)
    requires IsInside(c)
    ensures ScanString([c] + t) == Prepend([c], ScanString(t))
  {
    assert ([c] + t)[1..] == t;
  }

  // A backslash and one character.
  lemma ScanShort(x: char, t: Text)
    requires x != 'u'
    ensures ScanString(['\\', x] + t) == Prepend([Unescape(x)], ScanString(t))
  {
    assert (['\\', x] + t)[2..] == t;
  }

  lemma ScanControlChar(c: char, t: Text)
    requires '\0' < c < ' '
    ensures ScanString("\\u00" + [HexDigit(c as int / 16), HexDigit(c as int % 16)] + t) == Prepend([c], ScanString(t))
  {
    var e := "\\u00" + [HexDigit(c as int / 16), HexDigit(c as int % 16)];
    HexDigitValue(c as int / 16);
    HexDigitValue(c as int % 16);
    assert (e + t)[6..] == t;
    assert (e + t)[2..] == e[2..] + t;
    assert Hex4((e + t)[2..]) == c as int;
    assert Utf8(c as int) == [c];
  }

  lemma {:induction false} ScanEscaped(s: Text, r: Text)
    requires NulFree(s)
    ensures ScanString(Escape(s) + "\"" + r) == Ok(s, r)
  {
    hide ScanString, EscapeChar;
    if s == [] {
      ScanEnd(r);
      assert [] + "\"" == "\"";
    } else {
      ScanEscaped(s[1..], r);
      ScanEscapedChar(s[0], Escape(s[1..]) + "\"" + r);
      Assoc4(EscapeChar(s[0]), Escape(s[1..]), "\"", r);
      HeadTail(s);
    }
  }

  lemma ScanEnd(r: Text)
    ensures ScanString("\"" + r) == Ok([], r)
  {
    assert ("\"" + r)[1..] == r;
  }

  lemma ScanPrinted(s: Text, r: Text)
    requires NulFree(s)
    ensures StartsWith(PrintString(s) + r, '"') && ScanString((PrintString(s) + r)[1..]) == Ok(s, r)
  {
    hide Escape, ScanString;
    ScanEscaped(s, r);
    assert (PrintString(s) + r)[1..] == Escape(s) + "\"" + r;
  }

  lemma ParseDigitsPrinted(n: nat, r: Text)
    requires EndsNumber(r)
    ensures IntPart(Digits(n) + r) == (n, r)
  {
    TakeDigitsOfDigits(n, r);
    if n == 0 {
      assert (Digits(n) + r)[1..] == r;
    }
  }

  lemma ParsePrintedNumber(k: int, r: Text)
    requires EndsNumber(r)
    ensures ParseValue(Decimal(k) + r) == Ok(Number(k, 0), r)
  {
    hide ParseNumber;
    var s := Decimal(k) + r;
    NumberPrinted(k, r);
    assert s[0] == '-' || IsDigit(s[0]);
    ValueIsNumber(s);
  }

  lemma NumberPrinted(k: int, r: Text)
    requires EndsNumber(r)
    ensures ParseNumber(Decimal(k) + r) == Ok(Number(k, 0), r)
  {
    hide IntPart, FracPart, ExpPart, Digits;
    var n := if k < 0 then -k else k;
    ParseDigitsPrinted(n, r);
    SignDropped(n, r);
    NoFraction(n, r);
  }

  lemma SignDropped(n: nat, r: Text)
    ensures DropIf("-" + Digits(n) + r, '-') == Digits(n) + r && !StartsWith(Digits(n) + r, '-')
    ensures StartsWith("-" + Digits(n) + r, '-')
  {
    assert ("-" + Digits(n) + r)[1..] == Digits(n) + r;
    assert IsDigit(Digits(n)[0]) && (Digits(n) + r)[0] == Digits(n)[0];
  }

  lemma NoFraction(n: int, r: Text)
    requires EndsNumber(r)
    ensures FracPart(r, n) == (n, 0, r) && ExpPart(r) == (0, r)
  {}

  lemma PrintedStart(v: Json, depth: nat, fmt: bool)
    requires Printable(v)
    ensures Print(v, depth, fmt)[0] > ' '
    ensures Print(v, depth, fmt)[0] != ']' && Print(v, depth, fmt)[0] != '}'
  {}

  // After a separator, the parser resumes at the text that follows the layout blanks.
  lemma ResumeAfter(sep: Text, more: Text)
    requires sep != [] && Blank(sep[1..]) && (more == [] || more[0] > ' ')
    ensures StartsWith(sep + more, sep[0]) && Skip((sep + more)[1..]) == more
  {
    SkipBlanks(sep[1..], more);
    assert (sep + more)[1..] == sep[1..] + more;
  }

  // The printed value followed by any text that does not continue a number parses to the value.
  lemma {:induction false} ParsePrinted(v: Json, depth: nat, fmt: bool, r: Text)
    requires Printable(v) && EndsNumber(r)
    ensures ParseValue(Print(v, depth, fmt) + r) == Ok(v, r)
    decreases v, 1
  {
    var s := Print(v, depth, fmt) + r;
    match v
    case Null => assert s[4..] == r;
    case False => assert s[0] == 'f' && s[5..] == r;
    case True => assert s[0] == 't' && s[4..] == r;
    case Number(m, _) => ParsePrintedNumber(m, r);
    case String(t) => ScanPrinted(t, r);
    case Array(items) => ParsePrintedArray(items, depth, fmt, r);
    case Object(members) =>
      if members == [] {
        ParsePrintedEmpty(depth, fmt, r);
      } else {
        ParsePrintedObject(members, depth, fmt, r);
      }
  }

  lemma ParsePrintedArray(items: seq<Json>, depth: nat, fmt: bool, r: Text)
    requires PrintableItems(items)
    ensures ParseValue(Print(Array(items), depth, fmt) + r) == Ok(Array(items), r)
    decreases items, 1
  {
    var s := Print(Array(items), depth, fmt) + r;
    var body := PrintItems(items, depth + 1, fmt) + ("]" + r);
    Assoc("[", PrintItems(items, depth + 1, fmt), "]");
    Assoc("[", PrintItems(items, depth + 1, fmt) + "]", r);
    Assoc(PrintItems(items, depth + 1, fmt), "]", r);
    if items == [] {
      BracketResumes(r);
      ResumeAfter("[", body);
    } else {
      ItemsStart(items, depth + 1, fmt, "]" + r);
      ResumeAfter("[", body);
      ParsePrintedItems(items, depth + 1, fmt, r);
    }
    ValueIsArray(s, items, r);
  }

  lemma ItemsStart(items: seq<Json>, depth: nat, fmt: bool, t: Text)
    requires PrintableItems(items) && items != []
    ensures PrintItems(items, depth, fmt) + t != [] && (PrintItems(items, depth, fmt) + t)[0] > ' '
    ensures (PrintItems(items, depth, fmt) + t)[0] != ']'
  {
    PrintedStart(items[0], depth, fmt);
  }

  lemma {:induction false} ParsePrintedItems(items: seq<Json>, depth: nat, fmt: bool, r: Text)
    requires PrintableItems(items) && items != []
    ensures ParseItems(PrintItems(items, depth, fmt) + ("]" + r)) == Ok(items, r)
    decreases items, 0
  {
    var more := PrintItems(items[1..], depth, fmt) + ("]" + r);
    var rest := ItemEnd(|items| > 1, fmt) + more;
    Assoc(Print(items[0], depth, fmt) + ItemEnd(|items| > 1, fmt), PrintItems(items[1..], depth, fmt), "]" + r);
    Assoc(Print(items[0], depth, fmt), ItemEnd(|items| > 1, fmt), more);
    ParsePrinted(items[0], depth, fmt, rest);
    if |items| == 1 {
      BracketResumes(r);
    } else {
      ItemsStart(items[1..], depth, fmt, "]" + r);
      ResumeAfter(ItemEnd(true, fmt), more);
      ParsePrintedItems(items[1..], depth, fmt, r);
    }
    ItemsStep(PrintItems(items, depth, fmt) + ("]" + r), items[0], rest, items[1..], r);
    HeadTail(items);
  }

  lemma BracketResumes(r: Text)
    ensures Skip([] + ([] + ("]" + r))) == "]" + r
    ensures ("]" + r)[1..] == r
  {
    assert [] + ([] + ("]" + r)) == "]" + r;
  }

  lemma ParsePrintedEmpty(depth: nat, fmt: bool, r: Text)
    ensures ParseValue(Print(Object([]), depth, fmt) + r) == Ok(Object([]), r)
  {
    var s := Print(Object([]), depth, fmt) + r;
    var open := "{" + (if fmt then "\n" + Tabs(depth - 1) else "");
    assert s == open + ("}" + r);
    ResumeAfter(open, "}" + r);
    assert ("}" + r)[1..] == r;
  }

  lemma ParsePrintedObject(members: seq<Member>, depth: nat, fmt: bool, r: Text)
    requires PrintableMembers(members) && members != []
    ensures ParseValue(Print(Object(members), depth, fmt) + r) == Ok(Object(members), r)
    decreases members, 1
  {
    var s := Print(Object(members), depth, fmt) + r;
    var first := FirstMember(members, depth, fmt, r);
    var nl := if fmt then "\n" else "";
    var indent := if fmt then Tabs(depth + 1) else "";
    Assoc5("{", nl, PrintMembers(members, depth + 1, fmt), if fmt then Tabs(depth) else "", "}");
    Assoc("{", nl + (PrintMembers(members, depth + 1, fmt) + Close(depth, fmt)), r);
    Assoc(nl, PrintMembers(members, depth + 1, fmt) + Close(depth, fmt), r);
    Assoc(PrintMembers(members, depth + 1, fmt), Close(depth, fmt), r);
    UnrollMembers(members, depth, fmt, r);
    Assoc(nl, indent, first);
    Assoc("{", nl + indent, first);
    ResumeAfter("{" + (nl + indent), first);
    ParsePrintedMembers(members, depth, fmt, r);
    ValueIsObject(s, members, r);
  }

  function Close(depth: nat, fmt: bool): Text {
    (if fmt then Tabs(depth) else "") + "}"
  }

  // What follows the indentation of the first of some members of an object at the given depth.
  function FirstMember(members: seq<Member>, depth: nat, fmt: bool, r: Text): (t: Text)
    requires PrintableMembers(members) && members != []
    ensures StartsWith(t, '"')
  {
    PrintString(members[0].name) + ((if fmt then ":\t" else ":")
      + (Print(members[0].value, depth + 1, fmt) + AfterMember(members, depth, fmt, r)))
  }

  function AfterMember(members: seq<Member>, depth: nat, fmt: bool, r: Text): (t: Text)
    requires PrintableMembers(members) && members != []
    ensures EndsNumber(t)
  {
    MemberEnd(|members| > 1, fmt) + (PrintMembers(members[1..], depth + 1, fmt) + (Close(depth, fmt) + r))
  }

  lemma UnrollMembers(members: seq<Member>, depth: nat, fmt: bool, r: Text)
    requires PrintableMembers(members) && members != []
    ensures PrintMembers(members, depth + 1, fmt) + (Close(depth, fmt) + r)
         == (if fmt then Tabs(depth + 1) else "") + FirstMember(members, depth, fmt, r)
  {
    var indent := if fmt then Tabs(depth + 1) else "";
    var name := PrintString(members[0].name);
    var colon := if fmt then ":\t" else ":";
    var value := Print(members[0].value, depth + 1, fmt);
    Assoc5(indent + name + colon, value, MemberEnd(|members| > 1, fmt),
           PrintMembers(members[1..], depth + 1, fmt), Close(depth, fmt) + r);
    var x := value + AfterMember(members, depth, fmt, r);
    Assoc(indent + name, colon, x);
    Assoc(indent, name, colon + x);
  }

  lemma ParsePrintedMember(m: Member, depth: nat, fmt: bool, r: Text)
    requires NulFree(m.name) && Printable(m.value) && EndsNumber(r)
    ensures ParseMember(PrintString(m.name) + ((if fmt then ":\t" else ":") + (Print(m.value, depth, fmt) + r)))
         == Ok(m, r)
    decreases m, 2
  {
    var colon := if fmt then ":\t" else ":";
    var v := Print(m.value, depth, fmt) + r;
    ScanPrinted(m.name, colon + v);
    PrintedStart(m.value, depth, fmt);
    ResumeAfter(colon, v);
    ParsePrinted(m.value, depth, fmt, r);
  }

  lemma {:induction false} ParsePrintedMembers(members: seq<Member>, depth: nat, fmt: bool, r: Text)
    requires PrintableMembers(members) && members != []
    ensures ParseMembers(FirstMember(members, depth, fmt, r)) == Ok(members, r)
    decreases members, 0
  {
    hide ParseMember, ParseMembers, Print;
    var m := members[0];
    var rest := AfterMember(members, depth, fmt, r);
    ParsePrintedMember(m, depth + 1, fmt, rest);
    if |members| == 1 {
      CloseResumes(depth, fmt, r);
    } else {
      NextMember(members, depth, fmt, r);
      ParsePrintedMembers(members[1..], depth, fmt, r);
    }
    MembersStep(FirstMember(members, depth, fmt, r), m, rest, members[1..], r);
    HeadTail(members);
  }

  // Behind a member and its comma, the parser stands at the next member.
  lemma NextMember(members: seq<Member>, depth: nat, fmt: bool, r: Text)
    requires PrintableMembers(members) && |members| > 1
    ensures var t := Skip(AfterMember(members, depth, fmt, r));
            StartsWith(t, ',') && Skip(t[1..]) == FirstMember(members[1..], depth, fmt, r)
  {
    hide Print, PrintMembers, PrintString, Tabs, FirstMember;
    UnrollMembers(members[1..], depth, fmt, r);
    MemberResumes(depth, fmt, FirstMember(members[1..], depth, fmt, r));
  }

  lemma MemberResumes(depth: nat, fmt: bool, first: Text)
    requires StartsWith(first, '"')
    ensures var t := MemberEnd(true, fmt) + ((if fmt then Tabs(depth + 1) else "") + first);
            Skip(t) == t && StartsWith(t, ',') && Skip(t[1..]) == first
  {
    var indent := if fmt then Tabs(depth + 1) else "";
    Assoc(MemberEnd(true, fmt), indent, first);
    ResumeAfter(MemberEnd(true, fmt) + indent, first);
  }

  lemma CloseResumes(depth: nat, fmt: bool, r: Text)
    ensures Skip(MemberEnd(false, fmt) + ([] + (Close(depth, fmt) + r))) == "}" + r
    ensures ("}" + r)[1..] == r
  {
    var blanks := (if fmt then "\n" else "") + (if fmt then Tabs(depth) else "");
    assert MemberEnd(false, fmt) + ([] + (Close(depth, fmt) + r)) == blanks + ("}" + r);
    SkipBlanks(blanks, "}" + r);
  }

  // Strict parsing of a whole printed text gives the value and consumes the text.
  lemma PrintThenParse(v: Json, fmt: bool)
    requires Printable(v)
    ensures ParseText(Print(v, 0, fmt), true) == Ok(v, [])
  {
    PrintedStart(v, 0, fmt);
    ParsePrinted(v, 0, fmt, []);
    assert Print(v, 0, fmt) + [] == Print(v, 0, fmt);
  }

  // Without the strictness the printed value is read up to any text that continues no number, and that is left.
  lemma PrintThenParseMore(v: Json, depth: nat, fmt: bool, r: Text)
    requires Printable(v) && EndsNumber(r)
    ensures ParseText(Print(v, depth, fmt) + r, false) == Ok(v, r)
  {
    PrintedStart(v, depth, fmt);
    ParsePrinted(v, depth, fmt, r);
  }
}
