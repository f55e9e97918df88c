/** Reading a string literal: one pass measures it, a second decodes it into a buffer of that size. */
module JsonStringParser {
  import opened BitOps
  import opened CText
  import opened JsonTree
  import opened JsonGrammar
  import opened JsonParse

  // Where a cursor stops: Next at a position, Null when the text is rejected, Undefined at a malformed escape.
  datatype Cursor = Next(pos: nat) | Null | Undefined

  // What the first pass counts from inside a literal.
  function Measure(s: Text): (n: nat)
    ensures n <= |s|
  {
    if s == [] || s[0] == '"' then 0
    else if s[0] != '\\' then 1 + Measure(s[1..])
    else if |s| == 1 then 1
    else 1 + Measure(s[2..])
  }

  lemma MeasureInside(s: Text)
    requires s != [] && IsInside(s[0])
    ensures Measure(s) == 1 + Measure(s[1..])
  {}

  lemma MeasureUnicode(s: Text)
    requires |s| >= 6 && s[0] == '\\' && s[1] == 'u' && StartsUnit(s[2..])
    ensures Measure(s) == 5 + Measure(s[6..])
  {
    MeasureInside(s[2..]);
    MeasureInside(s[3..]);
    MeasureInside(s[4..]);
    MeasureInside(s[5..]);
  }

  // The second pass never needs more room than the first pass counted.
  lemma {:induction false} MeasureSuffices(s: Text)
    requires ScanString(s).Ok?
    ensures |ScanString(s).value| <= Measure(s)
    decreases |s|
  {
    if s == [] || s[0] == '"' {
    } else if s[0] != '\\' {
      MeasureSuffices(s[1..]);
    } else if s[1] != 'u' {
      MeasureSuffices(s[2..]);
    } else {
      MeasureUnicode(s);
      var k := EscapeLength(s);
      ScanEscape(s);
      MeasureSuffices(s[k..]);
      if k == 12 {
        MeasureUnicode(s[6..]);
        assert s[6..][2..] == s[8..] && s[6..][6..] == s[12..];
      }
    }
  }

  // Decoded literals of a C string are C strings.
  lemma {:induction false} ScanNulFree(s: Text)
    requires ScanString(s).Ok? && NulFree(s)
    ensures NulFree(ScanString(s).value) && NulFree(ScanString(s).rest)
    decreases |s|
  {
    if s == [] || s[0] == '"' {
    } else if s[0] != '\\' {
      ScanNulFree(s[1..]);
    } else if s[1] != 'u' {
      ScanNulFree(s[2..]);
    } else {
      ScanEscape(s);
      ScanNulFree(s[EscapeLength(s)..]);
      EscapeTextNulFree(s);
    }
  }

  lemma EscapeTextNulFree(s: Text)
    requires |s| >= 6 && StartsUnit(s[2..]) && (EscapeLength(s) == 12 ==> StartsUnit(s[8..]))
    ensures NulFree(EscapeText(s))
  {
    hide Utf8;
    var u := Unit(s[2..]);
    if EscapeLength(s) == 12 && IsLowSurrogate(Unit(s[8..])) {
      Utf8NulFree(Combine(u, Unit(s[8..])));
    } else if u != 0 {
      Utf8NulFree(u);
    }
  }

  lemma Utf8NulFree(u: nat)
    requires 0 < u <= 0x10_FFFF
    ensures NulFree(Utf8(u))
  {}

  // What the grammar of literals says about them.
  lemma FourCharacters(s: Text)
    ensures forall q | ProperQuad(q) && QuadText(q) <= s ::
              QuadValue(q) == if StartsHex4(s) then Hex4(s) else 0
  {
    hide QuadText, QuadValue, ProperQuad;
    forall q | ProperQuad(q) && QuadText(q) <= s
      ensures QuadValue(q) == if StartsHex4(s) then Hex4(s) else 0
    {
      UnitOf(q, s[4..]);
      assert QuadText(q) + s[4..] == s;
    }
  }

  method ParseHex4(text: Text, pos: nat) returns (h: nat)
    requires pos <= |text|
    ensures h == if StartsHex4(text[pos..]) then Hex4(text[pos..]) else 0
    ensures forall q | ProperQuad(q) && QuadText(q) <= text[pos..] :: h == QuadValue(q)
  {
    FourCharacters(text[pos..]);
    h := 0;
    var c := At(text, pos);
    if !IsHex(c) { return 0; }
    h := HexValue(c);
    c := At(text, pos + 1);
    if !IsHex(c) { return 0; }
    h := h * 16 + HexValue(c);
    c := At(text, pos + 2);
    if !IsHex(c) { return 0; }
    h := h * 16 + HexValue(c);
    c := At(text, pos + 3);
    if !IsHex(c) { return 0; }
    h := h * 16 + HexValue(c);
  }

  // The first byte of a sequence of n bytes.
  function FirstByteMark(n: nat): nat
    requires 1 <= n <= 4
  {
    if n == 1 then 0 else if n == 2 then 0xC0 else if n == 3 then 0xE0 else 0xF0
  }

  lemma LeadByte(u: nat, n: nat)
    requires 1 <= n <= 4
    requires u < if n == 1 then 0x80 else if n == 2 then 0x20 else if n == 3 then 0x10 else 8
    ensures Or(u, FirstByteMark(n)) == u + FirstByteMark(n)
  {
    if n == 1 {
      OrZero(u);
    } else {
      OrComm(u, FirstByteMark(n));
      assert Pow2(5) == 0x20;
      assert Pow2(4) == 0x10;
      assert Pow2(3) == 8;
      OrAdds(if n == 2 then 6 else if n == 3 then 14 else 30, u, if n == 2 then 5 else if n == 3 then 4 else 3);
    }
  }

  // uc >>= 6
  function Shift6(u: nat): nat {
    u / 0x40
  }

  function ContinuationOf(u: nat): nat {
    0x80 + u % 0x40
  }

  // What the first of n bytes holds of u.
  function LeadBits(u: nat, n: nat): nat {
    if n == 1 then u else if n == 2 then Shift6(u) else if n == 3 then Shift6(Shift6(u)) else Shift6(Shift6(Shift6(u)))
  }

  // The bytes of the encoding, from the last one on.
  lemma Utf8Bytes(u: nat)
    requires u <= 0x10_FFFF
    ensures var t := Utf8(u);
            && |t| == (if u < 0x80 then 1 else if u < 0x800 then 2 else if u < 0x1_0000 then 3 else 4)
            && t[0] as int == Or(LeadBits(u, |t|), FirstByteMark(|t|))
            && (|t| >= 2 ==> t[|t| - 1] as int == ContinuationOf(u))
            && (|t| >= 3 ==> t[|t| - 2] as int == ContinuationOf(Shift6(u)))
            && (|t| >= 4 ==> t[|t| - 3] as int == ContinuationOf(Shift6(Shift6(u))))
  {
    hide And, Or;
    ShiftTwice(u);
    LeadByte(LeadBits(u, |Utf8(u)|), |Utf8(u)|);
  }

  method WriteContinuation(out: array<char>, ptr: nat, uc: nat)
    requires ptr < out.Length
    modifies out
    ensures out[ptr] as int == ContinuationOf(uc)
    ensures forall j | 0 <= j < out.Length && j != ptr :: out[j] == old(out[j])
  {
    hide And, Or;
    ContinuationByte(uc);
    out[ptr] := And(Or(uc, 0x80), 0xBF) as char;
  }

  // Writes the bytes of u, last byte first, and returns the position behind them.
  method WriteUtf8(u: nat, out: array<char>, at: nat) returns (next: nat)
    requires 0 < u <= 0x10_FFFF && at + |Utf8(u)| <= out.Length
    modifies out
    ensures next == at + |Utf8(u)|
    ensures out[..at] == old(out[..at]) && out[at..next] == Utf8(u)
  {
    hide And, Or, Utf8, Shift6, ContinuationOf, FirstByteMark;
    ghost var t := Utf8(u);
    Utf8Bytes(u);
    var uc := u;
    var len := 4;
    if uc < 0x80 {
      len := 1;
    } else if uc < 0x800 {
      len := 2;
    } else if uc < 0x1_0000 {
      len := 3;
    }
    var ptr := at + len;
    if len >= 4 {
      ptr := ptr - 1;
      WriteContinuation(out, ptr, uc);
      uc := Shift6(uc);
    }
    if len >= 3 {
      ptr := ptr - 1;
      WriteContinuation(out, ptr, uc);
      uc := Shift6(uc);
    }
    if len >= 2 {
      ptr := ptr - 1;
      WriteContinuation(out, ptr, uc);
      uc := Shift6(uc);
    }
    assert ptr == at + 1 && uc == LeadBits(u, len) && forall k | 1 <= k < len :: out[at + k] == t[k];
    ptr := ptr - 1;
    out[ptr] := Or(uc, FirstByteMark(len)) as char;
    next := ptr + len;
    assert forall k | 0 <= k < len :: out[at + k] == t[k];
    assert out[at..next] == t;
  }

  // The first pass steps over the end of the text behind a final backslash.
  predicate Dangling(s: Text) {
    if s == [] || s[0] == '"' then false
    else if s[0] != '\\' then Dangling(s[1..])
    else |s| == 1 || Dangling(s[2..])
  }

  lemma DanglingInside(s: Text)
    requires s != [] && IsInside(s[0])
    ensures Dangling(s) == Dangling(s[1..])
  {}

  lemma DanglingUnicode(s: Text)
    requires |s| >= 6 && s[0] == '\\' && s[1] == 'u' && StartsUnit(s[2..])
    ensures Dangling(s) == Dangling(s[6..])
  {
    DanglingInside(s[2..]);
    DanglingInside(s[3..]);
    DanglingInside(s[4..]);
    DanglingInside(s[5..]);
  }

  lemma {:induction false} DanglingIsBad(s: Text)
    requires Dangling(s)
    ensures ScanString(s) == BadEscape
    decreases |s|
  {
    if s[0] != '\\' {
      DanglingIsBad(s[1..]);
    } else if |s| > 1 && s[1] != 'u' {
      DanglingIsBad(s[2..]);
    } else if |s| > 1 && StartsUnit(s[2..]) {
      DanglingUnicode(s);
      if EscapeLength(s) == 6 {
        ScanEscape(s);
        DanglingIsBad(s[6..]);
      } else if StartsUnit(s[8..]) {
        ScanEscape(s);
        DanglingUnicode(s[6..]);
        assert s[6..][2..] == s[8..] && s[6..][6..] == s[12..];
        DanglingIsBad(s[12..]);
      }
    }
  }

  lemma MeasureStep(s: Text)
    requires s != [] && s[0] != '"'
    ensures s[0] != '\\' ==> Measure(s) == 1 + Measure(s[1..]) && Dangling(s) == Dangling(s[1..])
    ensures s[0] == '\\' && |s| == 1 ==> Dangling(s)
    ensures s[0] == '\\' && |s| > 1 ==> Measure(s) == 1 + Measure(s[2..]) && Dangling(s) == Dangling(s[2..])
  {}

  lemma MeasureEnds(s: Text)
    requires s == [] || s[0] == '"'
    ensures Measure(s) == 0
  {}

  // The first pass.
  method MeasureLiteral(text: Text, start: nat) returns (r: Cursor, len: nat)
    requires start <= |text| && NulFree(text)
    ensures r.Undefined? ==> ScanString(text[start..]) == BadEscape
    ensures r.Next? ==> len == Measure(text[start..])
    ensures !r.Null?
  {
    hide Measure, Dangling, ScanString;
    var ptr := start;
    len := 0;
    while At(text, ptr) != '"' && At(text, ptr) != '\0'
      invariant start <= ptr <= |text|
      invariant Measure(text[start..]) == len + Measure(text[ptr..])
      invariant Dangling(text[start..]) == Dangling(text[ptr..])
      decreases |text| - ptr
    {
      len := len + 1;
      MeasureStep(text[ptr..]);
      if text[ptr] == '\\' {
        if ptr + 1 == |text| {
          DanglingIsBad(text[start..]);
          return Undefined, len;
        }
        ptr := ptr + 1;
        assert text[ptr - 1..][2..] == text[ptr + 1..];
      } else {
        assert text[ptr..][1..] == text[ptr + 1..];
      }
      ptr := ptr + 1;
    }
    MeasureEnds(text[ptr..]);
    r := Next(ptr);
  }

  lemma PrependTwice(a: Text, b: Text, p: Parse<Text>)
    ensures Prepend(a, Prepend(b, p)) == Prepend(a + b, p)
  {
    if p.Ok? {
      Assoc(a, b, p.value);
    }
  }

  // The second pass: out[..n] is the decoded text.
  method DecodeLiteral(text: Text, start: nat, len: nat) returns (r: Cursor, out: array<char>, n: nat)
    requires start <= |text| && NulFree(text) && len == Measure(text[start..])
    ensures fresh(out) && n < out.Length == len + 1 && (r.Next? ==> out[n] == '\0')
    ensures match ScanString(text[start..])
            case Ok(t, rest) => r.Next? && r.pos <= |text| && text[r.pos..] == rest && out[..n] == t
            case _ => r.Undefined?
  {
    hide ScanString, Measure, Prepend;
    out := new char[len + 1](_ => '\0');
    n := 0;
    var ptr := start;
    ghost var p := ScanString(text[start..]);
    assert out[..n] == [];
    PrependNothing(p);
    while At(text, ptr) != '"' && At(text, ptr) != '\0'
      invariant start <= ptr <= |text| && n + Measure(text[ptr..]) <= len
      invariant Prepend(out[..n], ScanString(text[ptr..])) == p
      decreases |text| - ptr
    {
      ghost var at, before := n, out[..n];
      var stop;
      stop, n := DecodeStep(text, ptr, out, n, len);
      if stop.Undefined? {
        PrependBad(before);
        return stop, out, n;
      }
      ptr := stop.pos;
      PrependTwice(before, out[at..n], ScanString(text[ptr..]));
      assert out[..n] == before + out[at..n];
    }
    ghost var t := out[..n];
    out[n] := '\0';
    assert out[..n] == t;
    PrependEnd(t, text[ptr..]);
    if At(text, ptr) == '"' {
      ptr := ptr + 1;
    }
    r := Next(ptr);
  }

  lemma PrependNothing(p: Parse<Text>)
    ensures Prepend([], p) == p
  {
    assert p.Ok? ==> [] + p.value == p.value;
  }

  lemma PrependBad(t: Text)
    ensures Prepend(t, BadEscape) == BadEscape
  {}

  // One turn of that loop: a character or an escape.
  method DecodeStep(text: Text, start: nat, out: array<char>, at: nat, len: nat) returns (r: Cursor, n: nat)
    requires start < |text| && NulFree(text) && text[start] != '"'
    requires out.Length == len + 1 && at + Measure(text[start..]) <= len
    modifies out
    ensures at <= n <= len && !r.Null? && out[..at] == old(out[..at])
    ensures r.Undefined? ==> ScanString(text[start..]) == BadEscape
    ensures r.Next? ==> start < r.pos <= |text| && n + Measure(text[r.pos..]) <= len
    ensures r.Next? ==> ScanString(text[start..]) == Prepend(out[at..n], ScanString(text[r.pos..]))
  {
    if text[start] == '\\' {
      r, n := DecodeEscape(text, start, out, at, len);
      return;
    }
    assert text[start..][1..] == text[start + 1..];
    out[at] := text[start];
    n := at + 1;
    assert out[at..n] == [text[start]];
    r := Next(start + 1);
  }

  lemma PrependEnd(t: Text, s: Text)
    requires s == [] || s[0] == '"'
    ensures Prepend(t, ScanString(s)) == Ok(t, if s == [] then [] else s[1..])
  {
    assert t + [] == t;
  }

  // One escape, with ptr at its backslash.
  method DecodeEscape(text: Text, start: nat, out: array<char>, at: nat, len: nat) returns (r: Cursor, n: nat)
    requires start < |text| && NulFree(text) && text[start] == '\\'
    requires out.Length == len + 1 && at + Measure(text[start..]) <= len
    modifies out
    ensures at <= n <= len && !r.Null? && out[..at] == old(out[..at])
    ensures r.Undefined? ==> ScanString(text[start..]) == BadEscape
    ensures r.Next? ==> start < r.pos <= |text| && n + Measure(text[r.pos..]) <= len
    ensures r.Next? ==> ScanString(text[start..]) == Prepend(out[at..n], ScanString(text[r.pos..]))
  {
    ghost var s := text[start..];
    n := at;
    var ptr := start + 1;
    if ptr == |text| {
      return Undefined, n;
    }
    if text[ptr] != 'u' {
      out[n] := Unescape(text[ptr]);
      n := n + 1;
      assert out[at..n] == [Unescape(text[ptr])];
      assert s[2..] == text[ptr + 1..];
      return Next(ptr + 1), n;
    }
    r, n := DecodeUnicode(text, start, out, at, len);
  }

  // A \\u escape: uXXXX is read as UTF-16 and written as UTF-8.
  method DecodeUnicode(text: Text, start: nat, out: array<char>, at: nat, len: nat) returns (r: Cursor, n: nat)
    requires start + 2 <= |text| && NulFree(text) && text[start] == '\\' && text[start + 1] == 'u'
    requires out.Length == len + 1 && at + Measure(text[start..]) <= len
    modifies out
    ensures at <= n <= len && !r.Null? && out[..at] == old(out[..at])
    ensures r.Undefined? ==> ScanString(text[start..]) == BadEscape
    ensures r.Next? ==> start < r.pos <= |text| && n + Measure(text[r.pos..]) <= len
    ensures r.Next? ==> ScanString(text[start..]) == Prepend(out[at..n], ScanString(text[r.pos..]))
  {
    hide Utf8, ScanString, Measure, Prepend, StartsUnit, EscapeText;
    n := at;
    var uc;
    r, uc := ReadUnicode(text, start);
    if r.Next? && uc != 0 {
      n := WriteUtf8(uc, out, n);
    }
    assert uc == 0 ==> out[at..n] == [];
  }

  // The code point of such an escape, zero if it stands for nothing.
  method ReadUnicode(text: Text, start: nat) returns (r: Cursor, uc: nat)
    requires start + 2 <= |text| && NulFree(text) && text[start] == '\\' && text[start + 1] == 'u'
    ensures !r.Null? && uc <= 0x10_FFFF && (r.Undefined? ==> ScanString(text[start..]) == BadEscape)
    ensures r.Next? ==>
              var t := if uc == 0 then [] else Utf8(uc);
              && start < r.pos <= |text| && |t| + Measure(text[r.pos..]) <= Measure(text[start..])
              && ScanString(text[start..]) == Prepend(t, ScanString(text[r.pos..]))
  {
    hide And, Or, Utf8, Combine, Hex4, StartsHex4, IsInside, Measure;
    ghost var s := text[start..];
    uc := 0;
    var ptr := start + 1;
    assert s[2..] == text[ptr + 1..];
    if !StartsUnit(text[ptr + 1..]) {
      return Undefined, uc;
    }
    var unit := ParseHex4(text, ptr + 1);
    ptr := ptr + 4;
    MeasureUnicode(s);
    assert s[6..] == text[ptr + 1..];
    if IsHighSurrogate(unit) && CText.At(text, ptr + 1) == '\\' && CText.At(text, ptr + 2) == 'u' {
      assert s[8..] == text[ptr + 3..];
      if !StartsUnit(text[ptr + 3..]) {
        return Undefined, uc;
      }
      var uc2 := ParseHex4(text, ptr + 3);
      ptr := ptr + 6;
      MeasurePair(s);
      assert s[12..] == text[ptr + 1..];
      if IsLowSurrogate(uc2) {
        CombineBits(unit, uc2);
        uc := 0x1_0000 + Or(And(unit, 0x3FF) * 0x400, And(uc2, 0x3FF));
      }
    } else if !IsLowSurrogate(unit) && !IsHighSurrogate(unit) {
      uc := unit;
    }
    ScanEscape(s);
    r := Next(ptr + 1);
  }

  lemma MeasurePair(s: Text)
    requires |s| >= 12 && s[0] == '\\' && s[1] == 'u' && s[6] == '\\' && s[7] == 'u'
    requires StartsUnit(s[2..]) && StartsUnit(s[8..])
    ensures Measure(s) == 10 + Measure(s[12..])
  {
    assert s[6..][2..] == s[8..] && s[6..][6..] == s[12..];
    MeasureUnicode(s);
    MeasureUnicode(s[6..]);
  }

  lemma CombineBits(high: nat, low: nat)
    requires IsHighSurrogate(high) && IsLowSurrogate(low)
    ensures 0x1_0000 + Or(And(high, 0x3FF) * 0x400, And(low, 0x3FF)) == Combine(high, low)
  {
    assert Pow2(10) == 0x400;
    AndMask(high, 10);
    AndMask(low, 10);
    var a, b := high - 0xD800, low - 0xDC00;
    assert high % 0x400 == a && low % 0x400 == b;
    OrAdds(a, b, 10);
  }
}
