/** Which accepted texts have all their literals closed: all but a lone literal without its closing quote. */
module JsonClosed {
  import opened CText
  import opened JsonTree
  import opened JsonParse
  import opened JsonMinify

  // From inside a literal: its closing quote is there.
  predicate Quoted(s: Text) {
    s != [] && (s[0] == '"' || if s[0] == '\\' then |s| >= 2 && Quoted(s[2..]) else Quoted(s[1..]))
  }

  lemma QuotedInside(s: Text)
    requires s != [] && IsInside(s[0])
    ensures Quoted(s) == Quoted(s[1..])
  {}

  lemma QuotedUnit(s: Text)
    requires |s| >= 6 && s[0] == '\\' && s[1] == 'u' && StartsUnit(s[2..])
    ensures Quoted(s) == Quoted(s[6..])
  {
    QuotedInside(s[2..]);
    QuotedInside(s[3..]);
    QuotedInside(s[4..]);
    QuotedInside(s[5..]);
  }

  lemma QuotedEscape(s: Text)
    requires |s| >= 6 && s[0] == '\\' && s[1] == 'u' && StartsUnit(s[2..])
    requires EscapeLength(s) == 12 ==> StartsUnit(s[8..])
    ensures Quoted(s) == Quoted(s[EscapeLength(s)..]) && ClosedLiteral(s) == ClosedLiteral(s[EscapeLength(s)..])
  {
    QuotedUnit(s);
    CopyUnicode(s);
    if EscapeLength(s) == 12 {
      assert s[6..][2..] == s[8..] && s[6..][6..] == s[12..];
      QuotedUnit(s[6..]);
      CopyUnicode(s[6..]);
    }
  }

  // A literal that the parser reads ends at its closing quote, or at the end of the text if it has none.
  lemma {:induction false} ScanClosed(s: Text)
    requires ScanString(s).Ok?
    ensures Quoted(s) ==> ClosedLiteral(s) == Closed(ScanString(s).rest)
    ensures !Quoted(s) ==> ScanString(s).rest == [] && !ClosedLiteral(s)
    decreases |s|
  {
    if s == [] || s[0] == '"' {
    } else if s[0] != '\\' {
      ScanClosed(s[1..]);
    } else if s[1] != 'u' {
      ScanClosed(s[2..]);
    } else {
      ScanEscape(s);
      QuotedEscape(s);
      ScanClosed(s[EscapeLength(s)..]);
    }
  }

  lemma {:induction false} SkipClosed(s: Text)
    ensures Closed(Skip(s)) == Closed(s)
  {
    if s != [] && s[0] <= ' ' {
      SkipClosed(s[1..]);
    }
  }

  lemma {:induction false} DigitsClosed(s: Text, n: int)
    ensures Closed(TakeDigits(s, n).1) == Closed(s)
  {
    if s != [] && IsDigit(s[0]) {
      DigitsClosed(s[1..], n * 10 + DigitValue(s[0]));
    }
  }

  lemma DropClosed(s: Text, c: char)
    requires IsPlain(c)
    ensures Closed(DropIf(s, c)) == Closed(s)
  {}

  lemma NumberClosed(s: Text)
    ensures Closed(ParseNumber(s).rest) == Closed(s)
  {
    DropClosed(s, '-');
    var s0 := DropIf(s, '-');
    DropClosed(s0, '0');
    DigitsClosed(DropIf(s0, '0'), 0);
    var (n, s1) := IntPart(s0);
    if |s1| >= 2 {
      DigitsClosed(s1[1..], n);
    }
    var (m, scale, s2) := FracPart(s1, n);
    ExpClosed(s2);
  }

  lemma ExpClosed(s: Text)
    ensures Closed(ExpPart(s).1) == Closed(s)
  {
    if s != [] && (s[0] == 'e' || s[0] == 'E') {
      DropClosed(s[1..], '-');
      DropClosed(s[1..], '+');
      DigitsClosed(DropIf(s[1..], '-'), 0);
      DigitsClosed(DropIf(s[1..], '+'), 0);
    }
  }

  lemma WordClosed(w: Text, s: Text)
    requires w <= s && forall i | 0 <= i < |w| :: IsPlain(w[i])
    ensures Closed(s) == Closed(s[|w|..])
  {
    MinifyPlain(w, s[|w|..]);
    assert w + s[|w|..] == s;
  }

  // What the parser reads as a value closes all that it opens, except for a literal at the end of the text.
  lemma {:induction false} ValueClosed(s: Text, v: Json, rest: Text)
    requires ParseValue(s) == Ok(v, rest) && (v.String? ==> rest != [])
    ensures Closed(s) == Closed(rest)
    decreases |s|, 1
  {
    if "null" <= s {
      WordClosed("null", s);
    } else if "false" <= s {
      WordClosed("false", s);
    } else if "true" <= s {
      WordClosed("true", s);
    } else if s[0] == '"' {
      ScanClosed(s[1..]);
    } else if s[0] == '-' || IsDigit(s[0]) {
      NumberClosed(s);
    } else {
      var t := Skip(s[1..]);
      SkipClosed(s[1..]);
      if s[0] == '[' && !StartsWith(t, ']') {
        ItemsClosed(t, v.items, rest);
      } else if s[0] == '{' && !StartsWith(t, '}') {
        MembersClosed(t, v.members, rest);
      }
    }
  }

  lemma {:induction false} ItemsClosed(s: Text, items: seq<Json>, rest: Text)
    requires ParseItems(s) == Ok(items, rest)
    ensures Closed(s) == Closed(rest)
    decreases |s|, 2
  {
    var v, r := ParseValue(s).value, ParseValue(s).rest;
    ValueClosed(s, v, r);
    SkipClosed(r);
    var t := Skip(r);
    if StartsWith(t, ',') {
      SkipClosed(t[1..]);
      ItemsClosed(Skip(t[1..]), ParseItems(Skip(t[1..])).value, rest);
    }
  }

  lemma {:induction false} MembersClosed(s: Text, members: seq<Member>, rest: Text)
    requires ParseMembers(s) == Ok(members, rest)
    ensures Closed(s) == Closed(rest)
    decreases |s|, 2
  {
    var m, r := ParseMember(s).value, ParseMember(s).rest;
    var t := Skip(r);
    MemberClosed(s, m, r);
    SkipClosed(r);
    if StartsWith(t, ',') {
      SkipClosed(t[1..]);
      MembersClosed(Skip(t[1..]), ParseMembers(Skip(t[1..])).value, rest);
    }
  }

  lemma MemberClosed(s: Text, m: Member, rest: Text)
    requires ParseMember(s) == Ok(m, rest) && rest != []
    ensures Closed(s) == Closed(rest)
    decreases |s|, 1
  {
    var r := ScanString(s[1..]).rest;
    var t := Skip(r);
    ScanClosed(s[1..]);
    SkipClosed(r);
    SkipClosed(t[1..]);
    ValueClosed(Skip(t[1..]), m.value, rest);
  }

  lemma StringAt(s: Text, v: Json, rest: Text)
    requires ParseValue(s) == Ok(v, rest) && v.String?
    ensures StartsWith(s, '"') && ScanString(s[1..]) == Ok(v.text, rest) && Closed(s) == ClosedLiteral(s[1..])
  {}

  // A text the strict parser accepts is closed, unless it is a lone literal without its closing quote.
  lemma AcceptedIsClosed(s: Text, v: Json)
    requires ParseText(s, true) == Ok(v, [])
    ensures Closed(s) <==> (v.String? ==> Quoted(Skip(s)[1..]))
  {
    hide ParseValue, Skip, ScanString, Quoted;
    var t := Skip(s);
    var rest := ParseValue(t).rest;
    SkipClosed(s);
    SkipClosed(rest);
    if v.String? {
      StringAt(t, v, rest);
      ScanClosed(t[1..]);
    } else {
      ValueClosed(t, v, rest);
    }
  }

  // An instance: the literal is accepted without its closing quote, which minifying would look for in vain.
  lemma OpenLiteralIsAccepted()
    ensures ParseText("\"a", true) == Ok(String("a"), []) && !Closed("\"a") && !Quoted("a")
  {
    var s := "\"a";
    assert s[1..] == "a" && s[1..][1..] == [];
    assert "a"[1..] == [] && "a" + [] == "a";
    assert ScanString("a") == Prepend("a", ScanString([]));
    assert Skip(s) == s;
    assert !ClosedLiteral([]) && !ClosedLiteral("a");
  }
}
