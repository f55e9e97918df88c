/** Printing a string literal into room that was measured beforehand. */
module JsonStringPrinter {
  import opened CText
  import opened JsonTree

  lemma {:induction false} EscapePlain(s: Text)
    requires forall i | 0 <= i < |s| :: !NeedsEscape(s[i])
    ensures Escape(s) == s
  {
    if s != [] {
      EscapePlain(s[1..]);
    }
  }

  lemma EscapeFirst(s: Text)
    requires s != []
    ensures |Escape(s)| == |EscapeChar(s[0])| + |Escape(s[1..])|
  {}

  // Whether some character needs an escape, and the room the literal takes with its terminator.
  method MeasureString(str: Text) returns (flag: bool, needed: nat)
    requires NulFree(str)
    ensures flag <==> exists i :: 0 <= i < |str| && NeedsEscape(str[i])
    ensures needed == |PrintString(str)| + 1
  {
    flag := false;
    var i := 0;
    while i < |str|
      invariant 0 <= i <= |str| && (flag <==> exists j :: 0 <= j < i && NeedsEscape(str[j]))
    {
      flag := flag || NeedsEscape(str[i]);
      i := i + 1;
    }
    if !flag {
      EscapePlain(str);
      return flag, |str| + 3;
    }
    var len := MeasureEscaped(str);
    needed := len + 3;
  }

  // The second loop over a string that has something to escape.
  method MeasureEscaped(str: Text) returns (len: nat)
    ensures len == |Escape(str)|
  {
    hide Escape;
    len := 0;
    var i := 0;
    EscapeEnds(str);
    while i < |str|
      invariant 0 <= i <= |str| && len + |Escape(str[i..])| == |Escape(str)|
    {
      var token := str[i];
      EscapeFirst(str[i..]);
      EscapeRoom(token);
      assert str[i..][1..] == str[i + 1..];
      len := len + 1;
      if token in "\"\\\U{8}\U{C}\n\r\t" {
        len := len + 1;
      } else if token < ' ' {
        len := len + 5;
      }
      i := i + 1;
    }
  }

  lemma EscapeEnds(s: Text)
    ensures Escape(s[|s|..]) == [] && s[0..] == s
  {}

  lemma EscapeRoom(c: char)
    ensures |EscapeChar(c)| == 1 + if c in "\"\\\U{8}\U{C}\n\r\t" then 1 else if c < ' ' then 5 else 0
  {}

  // Fills exactly the measured room at position at.
  method WriteString(buf: array<char>, at: nat, str: Text, flag: bool)
    requires at + |PrintString(str)| + 1 <= buf.Length
    requires flag <==> exists i :: 0 <= i < |str| && NeedsEscape(str[i])
    modifies buf
    ensures buf[..at] == old(buf[..at])
    ensures buf[at..at + |PrintString(str)|] == PrintString(str) && buf[at + |PrintString(str)|] == '\0'
  {
    var ptr := at + 1;
    ghost var head := buf[..at];
    buf[at] := '"';
    assert buf[..ptr] == head + ['"'];
    if flag {
      ptr := WriteEscaped(buf, ptr, str);
    } else {
      EscapePlain(str);
      ptr := CopyText(buf, ptr, str);
    }
    Close(buf, at, ptr, head, Escape(str));
  }

  // The closing quote and the terminator.
  method Close(buf: array<char>, at: nat, ptr: nat, ghost head: Text, ghost body: Text)
    requires |head| == at && ptr == at + 1 + |body| && ptr + 2 <= buf.Length
    requires buf[..at + 1] == head + ['"'] && buf[at + 1..ptr] == body
    modifies buf
    ensures buf[..at] == head && buf[at..ptr + 1] == "\"" + body + "\"" && buf[ptr + 1] == '\0'
  {
    assert buf[..at] == buf[..at + 1][..at];
    assert buf[at] == buf[..at + 1][at];
    buf[ptr] := '"';
    buf[ptr + 1] := '\0';
    assert buf[at..ptr + 1] == [buf[at]] + buf[at + 1..ptr] + [buf[ptr]];
  }

  // strcpy or memcpy of the characters of t, without a terminator.
  method CopyText(buf: array<char>, at: nat, t: Text) returns (ptr: nat)
    requires at + |t| <= buf.Length
    modifies buf
    ensures ptr == at + |t| && buf[..at] == old(buf[..at]) && buf[at..ptr] == t
  {
    ptr := at;
    while ptr < at + |t|
      invariant at <= ptr <= at + |t|
      invariant buf[..at] == old(buf[..at]) && buf[at..ptr] == t[..ptr - at]
    {
      buf[ptr] := t[ptr - at];
      ptr := ptr + 1;
    }
  }

  method WriteEscaped(buf: array<char>, at: nat, str: Text) returns (ptr: nat)
    requires at + |Escape(str)| <= buf.Length
    modifies buf
    ensures ptr == at + |Escape(str)| && buf[..at] == old(buf[..at]) && buf[at..ptr] == Escape(str)
  {
    hide Escape, EscapeChar;
    ghost var head := buf[..at];
    ptr := at;
    var i := 0;
    EscapeEnds(str);
    assert buf[..ptr] + Escape(str) == head + Escape(str);
    while i < |str|
      invariant 0 <= i <= |str| && at <= ptr && ptr + |Escape(str[i..])| == at + |Escape(str)|
      invariant buf[..ptr] + Escape(str[i..]) == head + Escape(str)
    {
      ghost var before, start := buf[..ptr], ptr;
      EscapeFirst(str[i..]);
      EscapeStep(before, str, i);
      ptr := WriteChar(buf, ptr, str[i]);
      assert buf[..ptr] == before + buf[start..ptr];
      i := i + 1;
    }
    assert buf[..ptr] + [] == buf[..ptr];
    assert buf[..at] == buf[..ptr][..at] && buf[at..ptr] == buf[..ptr][at..];
  }

  lemma EscapeStep(done: Text, s: Text, i: nat)
    requires i < |s|
    ensures |Escape(s[i..])| == |EscapeChar(s[i])| + |Escape(s[i + 1..])|
    ensures done + EscapeChar(s[i]) + Escape(s[i + 1..]) == done + Escape(s[i..])
  {
    assert s[i..][1..] == s[i + 1..];
    Assoc(done, EscapeChar(s[i]), Escape(s[i + 1..]));
  }

  method WriteChar(buf: array<char>, at: nat, token: char) returns (ptr: nat)
    requires at + |EscapeChar(token)| <= buf.Length
    modifies buf
    ensures ptr == at + |EscapeChar(token)| && buf[..at] == old(buf[..at]) && buf[at..ptr] == EscapeChar(token)
  {
    hide EscapeChar, EscapeCode;
    if !NeedsEscape(token) {
      EscapeOfPlain(token);
      ptr := WriteOne(buf, at, token);
      return;
    }
    EscapeCodeOf(token);
    ptr := WriteOne(buf, at, '\\');
    ghost var head := buf[..ptr];
    ptr := WriteEscapeCode(buf, ptr, token);
    assert buf[..at] == head[..at] && buf[at..at + 1] == head[at..];
    assert buf[at..ptr] == buf[at..at + 1] + buf[at + 1..ptr];
  }

  lemma EscapeOfPlain(c: char)
    requires !NeedsEscape(c)
    ensures EscapeChar(c) == [c]
  {}

  // What stands behind the backslash.
  function EscapeCode(c: char): Text
    requires NeedsEscape(c)
  {
    EscapeChar(c)[1..]
  }

  lemma EscapeCodeOf(c: char)
    requires NeedsEscape(c)
    ensures EscapeChar(c) == ['\\'] + EscapeCode(c)
  {}

  method WriteEscapeCode(buf: array<char>, at: nat, token: char) returns (ptr: nat)
    requires NeedsEscape(token) && at + |EscapeCode(token)| <= buf.Length
    modifies buf
    ensures ptr == at + |EscapeCode(token)| && buf[..at] == old(buf[..at]) && buf[at..ptr] == EscapeCode(token)
  {
    match token {
      case '\\' => ptr := WriteOne(buf, at, '\\');
      case '"' => ptr := WriteOne(buf, at, '"');
      case '\U{8}' => ptr := WriteOne(buf, at, 'b');
      case '\U{C}' => ptr := WriteOne(buf, at, 'f');
      case '\n' => ptr := WriteOne(buf, at, 'n');
      case '\r' => ptr := WriteOne(buf, at, 'r');
      case '\t' => ptr := WriteOne(buf, at, 't');
      case _ =>
        WriteHex(buf, at, token);
        ptr := at + 5;
    }
  }

  method WriteOne(buf: array<char>, at: nat, c: char) returns (ptr: nat)
    requires at < buf.Length
    modifies buf
    ensures ptr == at + 1 && buf[..at] == old(buf[..at]) && buf[at..ptr] == [c]
  {
    buf[at] := c;
    ptr := at + 1;
  }

  method WriteHex(buf: array<char>, ptr: nat, token: char)
    requires ptr + 5 <= buf.Length && token < ' '
    modifies buf
    ensures buf[ptr..ptr + 5] == "u00" + [HexDigit(token as int / 16), HexDigit(token as int % 16)]
    ensures buf[..ptr] == old(buf[..ptr])
  {
    buf[ptr], buf[ptr + 1], buf[ptr + 2] := 'u', '0', '0';
    buf[ptr + 3], buf[ptr + 4] := HexDigit(token as int / 16), HexDigit(token as int % 16);
  }
}
