/** The printed layout in words of its own: joined parts, lines with tabs, tables of escapes, and positional digits. */
module JsonLayout {
  import opened CText
  import opened JsonTree
  import opened JsonGrammar

  function Join(sep: Text, parts: seq<Text>): Text {
    if parts == [] then [] else if |parts| == 1 then parts[0] else parts[0] + sep + Join(sep, parts[1..])
  }

  lemma {:induction false} ItemsJoined(items: seq<Json>, depth: nat, fmt: bool, parts: seq<Text>)
    requires PrintableItems(items) && |parts| == |items|
    requires forall i | 0 <= i < |items| :: parts[i] == Print(items[i], depth, fmt)
    ensures PrintItems(items, depth, fmt) == Join(if fmt then ", " else ",", parts)
  {
    if |items| == 1 {
      assert PrintItems(items[1..], depth, fmt) == [];
      assert parts[0] + "" + [] == parts[0];
    } else if items != [] {
      ItemsJoined(items[1..], depth, fmt, parts[1..]);
    }
  }

  // The items of an array stand on one line, with a comma between them, and a blank behind it when formatted.
  lemma ArrayLayout(items: seq<Json>, depth: nat, fmt: bool, parts: seq<Text>)
    requires PrintableItems(items) && |parts| == |items|
    requires forall i | 0 <= i < |items| :: parts[i] == Print(items[i], depth + 1, fmt)
    ensures Print(Array(items), depth, fmt) == "[" + Join(if fmt then ", " else ",", parts) + "]"
  {
    ItemsJoined(items, depth + 1, fmt, parts);
  }

  lemma {:induction false} MembersJoined(members: seq<Member>, depth: nat, fmt: bool, parts: seq<Text>)
    requires PrintableMembers(members) && |parts| == |members|
    requires forall i | 0 <= i < |members| ::
               parts[i] == MemberStart(members[i].name, depth, fmt) + Print(members[i].value, depth, fmt)
    ensures PrintMembers(members, depth, fmt)
         == Join(if fmt then ",\n" else ",", parts) + (if fmt && members != [] then "\n" else "")
  {
    if |members| == 1 {
      assert PrintMembers(members[1..], depth, fmt) == [];
      assert MemberEnd(false, fmt) == if fmt then "\n" else "";
      assert parts[0] + MemberEnd(false, fmt) + [] == parts[0] + MemberEnd(false, fmt);
    } else if members != [] {
      MembersJoined(members[1..], depth, fmt, parts[1..]);
      assert MemberEnd(true, fmt) == if fmt then ",\n" else ",";
      Assoc(parts[0] + MemberEnd(true, fmt), Join(if fmt then ",\n" else ",", parts[1..]), if fmt then "\n" else "");
    }
  }

  // Each member of a formatted object has a line of its own, one tab deeper than the bracket.
  lemma ObjectLines(members: seq<Member>, depth: nat, lines: seq<Text>)
    requires PrintableMembers(members) && members != [] && |lines| == |members|
    requires forall i | 0 <= i < |members| ::
               lines[i] == seq(depth + 1, _ => '\t') + PrintString(members[i].name) + ":\t"
                           + Print(members[i].value, depth + 1, true)
    ensures Print(Object(members), depth, true)
         == "{\n" + Join(",\n", lines) + "\n" + seq(depth, _ => '\t') + "}"
  {
    assert Tabs(depth + 1) == seq(depth + 1, _ => '\t') && Tabs(depth) == seq(depth, _ => '\t');
    MembersJoined(members, depth + 1, true, lines);
    Assoc("{\n", Join(",\n", lines), "\n");
    assert "{" + "\n" == "{\n";
  }

  lemma ObjectLine(members: seq<Member>, depth: nat, parts: seq<Text>)
    requires PrintableMembers(members) && members != [] && |parts| == |members|
    requires forall i | 0 <= i < |members| ::
               parts[i] == PrintString(members[i].name) + ":" + Print(members[i].value, depth + 1, false)
    ensures Print(Object(members), depth, false) == "{" + Join(",", parts) + "}"
  {
    forall i | 0 <= i < |members|
      ensures parts[i] == MemberStart(members[i].name, depth + 1, false) + Print(members[i].value, depth + 1, false)
    {
      assert "" + PrintString(members[i].name) == PrintString(members[i].name);
    }
    MembersJoined(members, depth + 1, false, parts);
    assert Join(",", parts) + "" == Join(",", parts);
    assert "{" + "" + Join(",", parts) + "" + "}" == "{" + Join(",", parts) + "}";
  }

  // An empty object is formatted with its closing bracket one tab further out than its line.
  lemma EmptyLayout(depth: nat)
    ensures Print(Object([]), depth, false) == "{}" && Print(Array([]), depth, true) == "[]"
    ensures Print(Object([]), depth, true) == "{\n" + seq(if depth > 0 then depth - 1 else 0, _ => '\t') + "}"
  {
    assert Tabs(depth - 1) == seq(if depth > 0 then depth - 1 else 0, _ => '\t');
    assert "{" + "" + "}" == "{}";
    assert "{" + ("\n" + Tabs(depth - 1)) + "}" == "{\n" + Tabs(depth - 1) + "}";
  }

  const ESCAPED: Text := "\"\\\U{8}\U{C}\n\r\t"
  const ESCAPES: Text := "\"\\bfnrt"

  // Seven characters have an escape of one letter, the other control characters are written in hexadecimal, and all
  // the rest stand for themselves.
  lemma EscapeTable(c: char)
    ensures forall i | 0 <= i < 7 && c == ESCAPED[i] :: EscapeChar(c) == ['\\', ESCAPES[i]]
    ensures c !in ESCAPED ==>
              EscapeChar(c) == if c < ' ' then "\\u00" + [SMALL[c as int / 16], SMALL[c as int % 16]] else [c]
  {
    var all := ESCAPED;
    assert all[0] == '"' && all[1] == '\\' && all[2] == '\U{8}' && all[3] == '\U{C}' && all[4] == '\n'
        && all[5] == '\r' && all[6] == '\t';
    assert forall n | 0 <= n < 16 :: HexDigit(n) == SMALL[n];
  }

  lemma OneDigit(ds: seq<nat>)
    ensures |ds| == 1 ==> ValueOf(ds) == ds[0]
  {
    if |ds| == 1 {
      assert ds[..0] == [];
    }
  }

  lemma {:induction false} DigitsPlaced(n: nat) returns (ds: seq<nat>)
    ensures Decimals(ds) && ds != [] && ValueOf(ds) == n && (|ds| > 1 ==> ds[0] != 0)
    ensures |Digits(n)| == |ds| && forall i | 0 <= i < |ds| :: Digits(n)[i] == DIGITS[ds[i]]
  {
    assert forall d | 0 <= d < 10 :: Digit(d) == DIGITS[d];
    if n < 10 {
      ds := [n];
      OneDigit(ds);
    } else {
      var more := DigitsPlaced(n / 10);
      ds := more + [n % 10];
      assert ds[..|ds| - 1] == more;
      OneDigit(more);
    }
  }

  // An integer is written as its decimal digits, without leading zeros, behind a minus sign if it is negative.
  lemma DecimalPlaced(k: int) returns (ds: seq<nat>)
    ensures Decimals(ds) && ds != [] && ValueOf(ds) == (if k < 0 then -k else k) && (|ds| > 1 ==> ds[0] != 0)
    ensures Decimal(k)
         == (if k < 0 then "-" else "") + seq(|ds|, i requires 0 <= i < |ds| && ds[i] < 10 => DIGITS[ds[i]])
  {
    ds := DigitsPlaced(if k < 0 then -k else k);
    var t := seq(|ds|, i requires 0 <= i < |ds| && ds[i] < 10 => DIGITS[ds[i]]);
    assert Digits(if k < 0 then -k else k) == t;
    assert "" + t == t;
  }
}
