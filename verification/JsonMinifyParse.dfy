/** Minifying a text that the strict parser accepts keeps it accepted, with the same value. */
module JsonMinifyParse {
  import opened CText
  import opened JsonTree
  import opened JsonParse
  import opened JsonClosed
  import opened JsonMinify

  // After blanks, the text is over or goes on with a separator or a closing bracket.
  predicate EndsValue(s: Text) {
    var t := Skip(s);
    t == [] || t[0] == ',' || t[0] == ']' || t[0] == '}'
  }

  predicate NumberChar(c: char) {
    IsDigit(c) || c == '.' || c == 'e' || c == 'E' || c == '+' || c == '-'
  }

  // A position inside a number, or just behind one that is followed by the end of a value.
  predicate AtNumber(s: Text) {
    (s != [] && NumberChar(s[0])) || EndsValue(s)
  }

  // At a visible character outside comments, the minifier keeps that character.
  lemma SkipMinify(s: Text)
    requires Closed(s)
    requires !StartsWith(Skip(s), '/')
    ensures Closed(Skip(s)) && Skip(Minify(s)) == Minify(Skip(s))
  {
    if s == [] || s[0] > ' ' {
      if s != [] && s[0] == '"' {
      }
    } else {
      SkipMinify(s[1..]);
      if !IsLayout(s[0]) {
        assert Minify(s)[1..] == Minify(s[1..]);
      }
    }
  }

  // Minifying uncovers no number character and hides none.
  lemma NumberCharKept(s: Text, c: char)
    requires AtNumber(s) && Closed(s) && NumberChar(c)
    ensures StartsWith(Minify(s), c) == StartsWith(s, c)
    ensures StartsWith(s, c) ==> Closed(s[1..]) && Minify(s)[1..] == Minify(s[1..])
  {
    if s != [] && !NumberChar(s[0]) {
      SkipMinify(s);
      if s[0] <= ' ' && Minify(s) != [] && Minify(s)[0] > ' ' {
        assert Skip(Minify(s)) == Minify(s);
      }
    }
  }

  lemma {:induction false} TakeDigitsMinified(s: Text, n: int)
    requires Closed(s) && AtNumber(s) && AtNumber(TakeDigits(s, n).1)
    ensures Closed(TakeDigits(s, n).1)
    ensures TakeDigits(Minify(s), n) == (TakeDigits(s, n).0, Minify(TakeDigits(s, n).1))
    ensures |Minify(s)| - |Minify(TakeDigits(s, n).1)| == |s| - |TakeDigits(s, n).1|
  {
    if s != [] && IsDigit(s[0]) {
      NumberCharKept(s, s[0]);
      if s[1..] == [] || !IsDigit(s[1]) {
        assert TakeDigits(s, n).1 == s[1..];
      }
      TakeDigitsMinified(s[1..], n * 10 + DigitValue(s[0]));
    } else if Minify(s) != [] && IsDigit(Minify(s)[0]) {
      NumberCharKept(s, Minify(s)[0]);
    }
  }

  lemma DropIfMinified(s: Text, c: char)
    requires Closed(s) && AtNumber(s) && NumberChar(c)
    ensures Closed(DropIf(s, c)) && DropIf(Minify(s), c) == Minify(DropIf(s, c))
  {
    NumberCharKept(s, c);
  }

  // The first character of the minified text is a digit exactly when that of the text is, and the same one.
  lemma DigitKept(s: Text)
    requires AtNumber(s) && Closed(s)
    ensures forall c | IsDigit(c) :: StartsWith(Minify(s), c) == StartsWith(s, c)
  {
    forall c | IsDigit(c) ensures StartsWith(Minify(s), c) == StartsWith(s, c) {
      NumberCharKept(s, c);
    }
  }

  lemma IntPartMinified(s: Text)
    requires Closed(s) && AtNumber(s) && AtNumber(IntPart(s).1)
    ensures Closed(IntPart(s).1) && IntPart(Minify(s)) == (IntPart(s).0, Minify(IntPart(s).1))
  {
    var t := DropIf(s, '0');
    DropIfMinified(s, '0');
    assert AtNumber(t);
    DigitKept(t);
    if t != [] && '1' <= t[0] <= '9' {
      assert StartsWith(Minify(t), t[0]);
      TakeDigitsMinified(t, 0);
    } else if Minify(t) != [] && IsDigit(Minify(t)[0]) {
      assert StartsWith(t, Minify(t)[0]);
    }
  }

  lemma FracUnfold(s: Text, n: int)
    requires |s| >= 2 && s[0] == '.' && IsDigit(s[1])
    ensures var (m, rest) := TakeDigits(s[1..], n);
            FracPart(s, n) == (m, |rest| - |s| + 1, rest)
  {}

  lemma FracPartMinified(s: Text, n: int)
    requires Closed(s) && AtNumber(s) && AtNumber(FracPart(s, n).2)
    requires StartsWith(s, '.') ==> |s| >= 2 && IsDigit(s[1])
    ensures Closed(FracPart(s, n).2)
    ensures FracPart(Minify(s), n) == (FracPart(s, n).0, FracPart(s, n).1, Minify(FracPart(s, n).2))
  {
    hide TakeDigits, Closed, Minify, EndsValue;
    NumberCharKept(s, '.');
    if StartsWith(s, '.') {
      var t := s[1..];
      NumberCharKept(t, s[1]);
      FracUnfold(s, n);
      TakeDigitsMinified(t, n);
      assert Minify(s)[1..][0] == s[1];
      FracUnfold(Minify(s), n);
    }
  }

  lemma ExpPartMinified(s: Text)
    requires Closed(s) && AtNumber(s) && EndsValue(ExpPart(s).1)
    ensures Closed(ExpPart(s).1) && ExpPart(Minify(s)) == (ExpPart(s).0, Minify(ExpPart(s).1))
  {
    NumberCharKept(s, 'e');
    NumberCharKept(s, 'E');
    if s != [] && (s[0] == 'e' || s[0] == 'E') {
      var t := s[1..];
      assert AtNumber(t);
      NumberCharKept(t, '-');
      if StartsWith(t, '-') {
        TakeDigitsMinified(t[1..], 0);
      } else {
        DropIfMinified(t, '+');
        TakeDigitsMinified(DropIf(t, '+'), 0);
      }
    }
  }

  lemma NumberMinified(s: Text, v: Json, rest: Text)
    requires Closed(s) && s != [] && (s[0] == '-' || IsDigit(s[0]))
    requires ParseNumber(s) == Ok(v, rest) && EndsValue(rest)
    ensures Closed(rest) && ParseNumber(Minify(s)) == Ok(v, Minify(rest))
  {
    var s0 := DropIf(s, '-');
    var (n, s1) := IntPart(s0);
    var (m, scale, s2) := FracPart(s1, n);
    var (e, s3) := ExpPart(s2);
    NumberFromStages(s, n, s1, m, scale, s2, e, s3);
    StagesMinified(s0, n, s1, m, scale, s2, e, s3);
    NumberCharKept(s, '-');
    DropIfMinified(s, '-');
    NumberFromStages(Minify(s), n, Minify(s1), m, scale, Minify(s2), e, Minify(s3));
  }

  lemma StagesMinified(s0: Text, n: int, s1: Text, m: int, scale: int, s2: Text, e: int, s3: Text)
    requires Closed(s0) && EndsValue(s3)
    requires IntPart(s0) == (n, s1) && FracPart(s1, n) == (m, scale, s2) && ExpPart(s2) == (e, s3)
    ensures AtNumber(s0) && Closed(s1) && Closed(s2) && Closed(s3)
    ensures IntPart(Minify(s0)) == (n, Minify(s1)) && FracPart(Minify(s1), n) == (m, scale, Minify(s2))
    ensures ExpPart(Minify(s2)) == (e, Minify(s3))
  {
    AtExp(s2);
    AtFrac(s1, n);
    AtInt(s0);
    IntPartMinified(s0);
    FracPartMinified(s1, n);
    ExpPartMinified(s2);
  }

  lemma NumberFromStages(s: Text, n: int, s1: Text, m: int, scale: int, s2: Text, e: int, s3: Text)
    requires IntPart(DropIf(s, '-')) == (n, s1) && FracPart(s1, n) == (m, scale, s2) && ExpPart(s2) == (e, s3)
    ensures ParseNumber(s) == Ok(Number(if StartsWith(s, '-') then -m else m, scale + e), s3)
  {}

  // Each stage of a number starts inside the number, or consumes nothing and so stands at its end.
  lemma AtExp(s: Text)
    requires EndsValue(ExpPart(s).1)
    ensures AtNumber(s) && !StartsWith(s, '.')
  {}

  lemma AtFrac(s: Text, n: int)
    requires AtNumber(FracPart(s, n).2) && !StartsWith(FracPart(s, n).2, '.')
    ensures AtNumber(s) && (StartsWith(s, '.') ==> |s| >= 2 && IsDigit(s[1]))
  {}

  lemma AtInt(s: Text)
    requires AtNumber(IntPart(s).1)
    ensures AtNumber(s)
  {}

  // The literals the minifier copies are the literals the parser reads.
  lemma {:induction false} ScanMinified(s: Text)
    requires ClosedLiteral(s) && ScanString(s).Ok?
    ensures Closed(ScanString(s).rest)
    ensures ScanString(MinifyLiteral(s)) == Ok(ScanString(s).value, Minify(ScanString(s).rest))
    decreases |s|
  {
    var m := MinifyLiteral(s);
    if s[0] == '"' {
      assert m[1..] == Minify(s[1..]);
    } else if s[0] != '\\' {
      ScanMinified(s[1..]);
      assert m[1..] == MinifyLiteral(s[1..]);
    } else if s[1] != 'u' {
      ScanMinified(s[2..]);
      assert m[2..] == MinifyLiteral(s[2..]);
    } else {
      var k := EscapeLength(s);
      CopyEscape(s);
      ScanMinified(s[k..]);
      ScanEscape(s);
      ScanEscape(m);
    }
  }

  lemma SameUnit(s: Text, m: Text)
    requires StartsUnit(s) && |m| >= 4 && m[..4] == s[..4]
    ensures StartsUnit(m) && Unit(m) == Unit(s)
  {
    assert forall i | 0 <= i < 4 :: m[i] == m[..4][i] && s[i] == s[..4][i];
  }

  // Texts that start with the same six characters agree on the escape's mark and on its four digits.
  lemma Prefixes(s: Text, m: Text)
    requires |s| >= 6 && |m| >= 6 && m[..6] == s[..6]
    ensures m[..2] == s[..2] && m[2..][..4] == s[2..][..4] && m[0] == s[0] && m[1] == s[1]
  {
    assert m[..2] == m[..6][..2] && s[..2] == s[..6][..2];
    assert m[2..][..4] == m[..6][2..] && s[2..][..4] == s[..6][2..];
    assert m[0] == m[..6][0] && m[1] == m[..6][1];
  }

  lemma CopyEscape(s: Text)
    requires |s| >= 6 && s[0] == '\\' && s[1] == 'u' && StartsUnit(s[2..]) && ClosedLiteral(s)
    requires EscapeLength(s) == 12 ==> StartsUnit(s[8..])
    ensures ClosedLiteral(s[EscapeLength(s)..])
    ensures var m := MinifyLiteral(s);
            && |m| >= 6 && m[..2] == s[..2] && StartsUnit(m[2..])
            && EscapeLength(m) == EscapeLength(s) && (EscapeLength(m) == 12 ==> StartsUnit(m[8..]))
            && EscapeText(m) == EscapeText(s)
            && m[EscapeLength(m)..] == MinifyLiteral(s[EscapeLength(s)..])
  {
    hide Utf8, Combine, Unit;
    CopyUnicode(s);
    var m, n := MinifyLiteral(s), MinifyLiteral(s[6..]);
    assert m[6..] == n;
    Prefixes(s, m);
    SameUnit(s[2..], m[2..]);
    if EscapeLength(s) == 12 {
      CopyUnicode(s[6..]);
      assert s[6..][6..] == s[12..] && n[6..] == m[12..];
      assert s[6..][2..] == s[8..] && n[2..] == m[8..];
      Prefixes(s[6..], n);
      SameUnit(s[8..], m[8..]);
    } else if |m| >= 8 && m[6] == '\\' && m[7] == 'u' {
      assert n[0] == '\\' && n[1] == 'u';
      assert s[6] == '\\' && s[7] == 'u';
    }
  }

  lemma {:induction false} ValueMinified(s: Text, v: Json, rest: Text)
    requires Closed(s) && ParseValue(s) == Ok(v, rest) && EndsValue(rest)
    ensures Closed(rest) && ParseValue(Minify(s)) == Ok(v, Minify(rest))
    decreases |s|, 1
  {
    hide ParseNumber, ScanString, ParseItems, ParseMembers, Skip, Closed;
    if "null" <= s {
      WordMinified("null", s);
    } else if "false" <= s {
      WordMinified("false", s);
    } else if "true" <= s {
      WordMinified("true", s);
    } else if s[0] == '"' {
      LiteralMinified(s);
      ScanMinified(s[1..]);
      StringValue(Minify(s), v.text, Minify(rest));
    } else if s[0] == '-' || IsDigit(s[0]) {
      NumberMinified(s, v, rest);
      StartsNumber(s);
      NumberCharKept(s, s[0]);
      ValueIsNumber(Minify(s));
    } else if s[0] == '[' {
      ArrayMinified(s, v.items, rest);
    } else {
      ObjectMinified(s, v.members, rest);
    }
  }

  lemma LiteralMinified(s: Text)
    requires Closed(s) && StartsWith(s, '"')
    ensures ClosedLiteral(s[1..]) && StartsWith(Minify(s), '"') && Minify(s)[1..] == MinifyLiteral(s[1..])
  {}

  lemma StartsNumber(s: Text)
    requires s != [] && (s[0] == '-' || IsDigit(s[0]))
    ensures AtNumber(s)
  {}

  // An opening bracket survives, and the text after it resumes at the same place.
  lemma OpenMinified(s: Text)
    requires Closed(s) && s != [] && IsPlain(s[0]) && !StartsWith(Skip(s[1..]), '/')
    ensures var t := Skip(s[1..]);
            && Closed(t) && StartsWith(Minify(s), s[0]) && Skip(Minify(s)[1..]) == Minify(t)
            && (t != [] && IsPlain(t[0]) ==>
                  Closed(t[1..]) && StartsWith(Minify(t), t[0]) && Minify(t)[1..] == Minify(t[1..]))
            && (t != [] ==> Minify(t) != [] && Minify(t)[0] == t[0])
  {
    SkipMinify(s[1..]);
    assert Minify(s)[1..] == Minify(s[1..]);
    var t := Skip(s[1..]);
    assert t != [] ==> Minify(t)[0] == t[0];
  }

  lemma ArrayMinified(s: Text, items: seq<Json>, rest: Text)
    requires Closed(s) && StartsWith(s, '[') && ParseValue(s) == Ok(Array(items), rest)
    ensures Closed(rest) && ParseValue(Minify(s)) == Ok(Array(items), Minify(rest))
    decreases |s|, 0
  {
    var t := Skip(s[1..]);
    NotComment(t);
    OpenMinified(s);
    if !StartsWith(t, ']') {
      ItemsMinified(t, items, rest);
      ItemsNonEmpty(t);
    }
    ValueIsArray(Minify(s), items, Minify(rest));
  }

  lemma ObjectMinified(s: Text, members: seq<Member>, rest: Text)
    requires Closed(s) && StartsWith(s, '{') && ParseValue(s) == Ok(Object(members), rest)
    ensures Closed(rest) && ParseValue(Minify(s)) == Ok(Object(members), Minify(rest))
    decreases |s|, 0
  {
    var t := Skip(s[1..]);
    NotComment(t);
    OpenMinified(s);
    if !StartsWith(t, '}') {
      MembersMinified(t, members, rest);
      MembersNonEmpty(t);
    }
    ValueIsObject(Minify(s), members, Minify(rest));
  }

  lemma WordMinified(w: Text, s: Text)
    requires w <= s && Closed(s) && forall i | 0 <= i < |w| :: IsPlain(w[i])
    ensures Closed(s[|w|..]) && w <= Minify(s) && Minify(s)[|w|..] == Minify(s[|w|..])
  {
    MinifyPlain(w, s[|w|..]);
    assert w + s[|w|..] == s;
  }

  lemma StringValue(s: Text, t: Text, rest: Text)
    requires StartsWith(s, '"') && ScanString(s[1..]) == Ok(t, rest)
    ensures ParseValue(s) == Ok(String(t), rest)
  {}

  // After a value: the separator or closing bracket survives, and what follows it resumes at the same place.
  lemma AfterValueMinified(rest: Text, c: char)
    requires Closed(rest) && StartsWith(Skip(rest), c) && c in {',', ']', '}', ':'}
    ensures Closed(Skip(rest)[1..]) && StartsWith(Skip(Minify(rest)), c)
    ensures Skip(Minify(rest))[1..] == Minify(Skip(rest)[1..])
  {
    SkipMinify(rest);
    var t := Skip(rest);
    assert Minify(t) == [t[0]] + Minify(t[1..]);
  }

  lemma {:induction false} ItemsMinified(s: Text, items: seq<Json>, rest: Text)
    requires Closed(s) && ParseItems(s) == Ok(items, rest)
    ensures Closed(rest) && ParseItems(Minify(s)) == Ok(items, Minify(rest))
    decreases |s|, 2
  {
    var v, r := ParseValue(s).value, ParseValue(s).rest;
    var t := Skip(r);
    ValueMinified(s, v, r);
    AfterValueMinified(r, t[0]);
    if StartsWith(t, ',') {
      var tail := ParseItems(Skip(t[1..])).value;
      ItemsNonEmpty(Skip(t[1..]));
      NotComment(Skip(t[1..]));
      SkipMinify(t[1..]);
      ItemsMinified(Skip(t[1..]), tail, rest);
      ItemsStep(Minify(s), v, Minify(r), tail, Minify(rest));
    } else {
      ItemsStep(Minify(s), v, Minify(r), [], Minify(rest));
      assert [v] + [] == [v];
    }
  }

  lemma ItemsNonEmpty(s: Text)
    requires ParseItems(s).Ok?
    ensures ParseItems(s).value != []
  {}

  // No value starts with a slash.
  lemma NotComment(s: Text)
    ensures StartsWith(s, '/') ==> !ParseValue(s).Ok? && !ParseItems(s).Ok? && !ParseMembers(s).Ok?
  {}

  lemma {:induction false} MembersMinified(s: Text, members: seq<Member>, rest: Text)
    requires Closed(s) && ParseMembers(s) == Ok(members, rest)
    ensures Closed(rest) && ParseMembers(Minify(s)) == Ok(members, Minify(rest))
    decreases |s|, 2
  {
    var m, r := ParseMember(s).value, ParseMember(s).rest;
    var t := Skip(r);
    MemberMinified(s, m, r);
    AfterValueMinified(r, t[0]);
    if StartsWith(t, ',') {
      var tail := ParseMembers(Skip(t[1..])).value;
      MembersNonEmpty(Skip(t[1..]));
      NotComment(Skip(t[1..]));
      SkipMinify(t[1..]);
      MembersMinified(Skip(t[1..]), tail, rest);
      MembersStep(Minify(s), m, Minify(r), tail, Minify(rest));
    } else {
      MembersStep(Minify(s), m, Minify(r), [], Minify(rest));
      assert [m] + [] == [m];
    }
  }

  lemma MembersNonEmpty(s: Text)
    requires ParseMembers(s).Ok?
    ensures ParseMembers(s).value != []
  {}

  lemma MemberMinified(s: Text, m: Member, rest: Text)
    requires Closed(s) && ParseMember(s) == Ok(m, rest) && EndsValue(rest)
    ensures Closed(rest) && ParseMember(Minify(s)) == Ok(m, Minify(rest))
    decreases |s|, 1
  {
    var r := ScanString(s[1..]).rest;
    var t := Skip(r);
    var u := Skip(t[1..]);
    ScanMinified(s[1..]);
    AfterValueMinified(r, ':');
    NotComment(u);
    SkipMinify(t[1..]);
    ValueMinified(u, m.value, rest);
    MemberFromParts(Minify(s), m.name, Minify(r), m.value, Minify(rest));
  }

  lemma MemberFromParts(s: Text, name: Text, r: Text, v: Json, rest: Text)
    requires StartsWith(s, '"') && ScanString(s[1..]) == Ok(name, r)
    requires StartsWith(Skip(r), ':') && ParseValue(Skip(Skip(r)[1..])) == Ok(v, rest)
    ensures ParseMember(s) == Ok(Member(name, v), rest)
  {}

  // A text accepted by the strict parser keeps its value when minified; only a lone literal must have its
  // closing quote.
  lemma MinifyPreservesParse(s: Text, v: Json)
    requires ParseText(s, true) == Ok(v, []) && (v.String? ==> Quoted(Skip(s)[1..]))
    ensures Closed(s) && ParseText(Minify(s), true) == Ok(v, [])
  {
    AcceptedIsClosed(s, v);
    var t := Skip(s);
    NotComment(t);
    SkipMinify(s);
    var rest := ParseValue(t).rest;
    ValueMinified(t, v, rest);
    SkipMinify(rest);
  }
}
