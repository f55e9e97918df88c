/** The minifier: what it computes, and that it preserves the meaning of a text. */
module JsonMinify {
  import opened CText
  import opened JsonTree
  import opened JsonParse
  import opened JsonRoundTrip

  predicate IsLayout(c: char) {
    c == ' ' || c == '\t' || c == '\r' || c == '\n'
  }

  predicate StartsLineComment(s: Text) {
    |s| >= 2 && s[0] == '/' && s[1] == '/'
  }

  predicate StartsBlockComment(s: Text) {
    |s| >= 2 && s[0] == '/' && s[1] == '*'
  }

  predicate StartsBlockEnd(s: Text) {
    |s| >= 2 && s[0] == '*' && s[1] == '/'
  }

  // Up to the newline, which stays.
  function DropLine(s: Text): (r: Text)
    ensures |r| <= |s|
  {
    if s != [] && s[0] != '\n' then DropLine(s[1..]) else s
  }

  function SeekBlockEnd(s: Text): (r: Text)
    ensures |r| <= |s| && (r == [] || StartsBlockEnd(r))
  {
    if s == [] || StartsBlockEnd(s) then s else SeekBlockEnd(s[1..])
  }

  // Comments and literals are closed: scanning never passes the end of the text.
  predicate Closed(s: Text)
    decreases |s|, 1
  {
    if s == [] then true
    else if IsLayout(s[0]) then Closed(s[1..])
    else if StartsLineComment(s) then Closed(DropLine(s[1..]))
    else if StartsBlockComment(s) then
      var e := SeekBlockEnd(s[1..]);
      e != [] && Closed(e[2..])
    else if s[0] == '"' then ClosedLiteral(s[1..])
    else Closed(s[1..])
  }

  predicate ClosedLiteral(s: Text)
    decreases |s|, 0
  {
    if s == [] then false
    else if s[0] == '"' then Closed(s[1..])
    else if s[0] == '\\' then |s| >= 2 && ClosedLiteral(s[2..])
    else ClosedLiteral(s[1..])
  }

  function Minify(s: Text): (r: Text)
    requires Closed(s)
    ensures |r| <= |s|
    decreases |s|, 1
  {
    if s == [] then []
    else if IsLayout(s[0]) then Minify(s[1..])
    else if StartsLineComment(s) then Minify(DropLine(s[1..]))
    else if StartsBlockComment(s) then Minify(SeekBlockEnd(s[1..])[2..])
    else if s[0] == '"' then [s[0]] + MinifyLiteral(s[1..])
    else [s[0]] + Minify(s[1..])
  }

  // From inside a literal.
  function MinifyLiteral(s: Text): (r: Text)
    requires ClosedLiteral(s)
    ensures |r| <= |s|
    decreases |s|, 0
  {
    if s[0] == '"' then [s[0]] + Minify(s[1..])
    else if s[0] == '\\' then [s[0], s[1]] + MinifyLiteral(s[2..])
    else [s[0]] + MinifyLiteral(s[1..])
  }

  // Neither layout, nor the start of a comment or of a literal.
  predicate IsPlain(c: char) {
    !IsLayout(c) && c != '/' && c != '"'
  }

  lemma {:induction false} MinifyPlain(p: Text, t: Text)
    requires forall i | 0 <= i < |p| :: IsPlain(p[i])
    ensures Closed(p + t) == Closed(t)
    ensures Closed(t) ==> Minify(p + t) == p + Minify(t)
  {
    if p == [] {
      assert p + t == t;
      assert Closed(t) ==> p + Minify(t) == Minify(t);
    } else {
      MinifyPlain(p[1..], t);
      assert (p + t)[1..] == p[1..] + t;
      assert Closed(t) ==> p + Minify(t) == [p[0]] + (p[1..] + Minify(t));
    }
  }

  lemma {:induction false} MinifyLayout(p: Text, t: Text)
    requires forall i | 0 <= i < |p| :: IsLayout(p[i])
    ensures Closed(p + t) == Closed(t)
    ensures Closed(t) ==> Minify(p + t) == Minify(t)
  {
    if p == [] {
      assert p + t == t;
    } else {
      MinifyLayout(p[1..], t);
      assert (p + t)[1..] == p[1..] + t;
    }
  }

  lemma MinifyEscapedChar(c: char, t: Text)
    requires ClosedLiteral(t)
    ensures ClosedLiteral(EscapeChar(c) + t)
    ensures MinifyLiteral(EscapeChar(c) + t) == EscapeChar(c) + MinifyLiteral(t)
  {
    var e := EscapeChar(c);
    if |e| == 1 {
      assert (e + t)[1..] == t;
    } else if |e| == 2 {
      assert (e + t)[2..] == t;
      assert e == [e[0], e[1]];
    } else {
      HexDigitValue(c as int / 16);
      HexDigitValue(c as int % 16);
      assert (e + t)[6..] == t;
      assert (e + t)[..6] == e;
      assert (e + t)[2..] == e[2..] + t;
      CopyUnicode(e + t);
    }
  }

  // The minifier copies a \\uXXXX through, since none of the four characters closes the literal.
  lemma CopyUnicode(s: Text)
    requires |s| >= 2 && s[0] == '\\' && s[1] == 'u' && StartsUnit(s[2..])
    ensures ClosedLiteral(s) == ClosedLiteral(s[6..])
    ensures ClosedLiteral(s) ==> MinifyLiteral(s) == s[..6] + MinifyLiteral(s[6..])
  {
    CopyOne(s[5..]);
    CopyOne(s[4..]);
    CopyOne(s[3..]);
    CopyOne(s[2..]);
  }

  lemma CopyOne(s: Text)
    requires s != [] && IsInside(s[0])
    ensures ClosedLiteral(s) == ClosedLiteral(s[1..])
    ensures ClosedLiteral(s) ==> MinifyLiteral(s) == [s[0]] + MinifyLiteral(s[1..])
  {}

  lemma {:induction false} MinifyEscaped(s: Text, t: Text)
    requires Closed(t)
    ensures ClosedLiteral(Escape(s) + ("\"" + t))
    ensures MinifyLiteral(Escape(s) + ("\"" + t)) == Escape(s) + ("\"" + Minify(t))
  {
    var q := "\"" + t;
    assert q[1..] == t;
    if s == [] {
      assert [] + q == q;
      assert [] + ("\"" + Minify(t)) == ['"'] + Minify(t);
    } else {
      MinifyEscaped(s[1..], t);
      MinifyEscapedChar(s[0], Escape(s[1..]) + q);
      Assoc(EscapeChar(s[0]), Escape(s[1..]), q);
      Assoc(EscapeChar(s[0]), Escape(s[1..]), "\"" + Minify(t));
    }
  }

  lemma MinifyPrintedString(s: Text, t: Text)
    requires Closed(t)
    ensures Closed(PrintString(s) + t) && Minify(PrintString(s) + t) == PrintString(s) + Minify(t)
  {
    MinifyEscaped(s, t);
    Assoc("\"", Escape(s), "\"");
    Assoc("\"", Escape(s) + "\"", t);
    Assoc(Escape(s), "\"", t);
    Assoc("\"", Escape(s) + "\"", Minify(t));
    Assoc(Escape(s), "\"", Minify(t));
    assert ("\"" + (Escape(s) + ("\"" + t)))[1..] == Escape(s) + ("\"" + t);
  }
}
