/** Escaped Unicode text: from the escapes of section 7 of RFC 8259 to the UTF-8 of section 3 of RFC 3629. */
module JsonUnicode {
  import opened CText
  import opened JsonGrammar
  import opened JsonParse

  // p writes u as one escape, or as a surrogate pair beyond the basic plane, in digits of either case.
  predicate Writes(p: Piece, u: nat) {
    match p
    case Code(Hexes(a, b, c, d)) => ProperQuad(p.q) && ((a.value * 16 + b.value) * 16 + c.value) * 16 + d.value == u
    case Pair(high, low) =>
      && high.Hexes? && low.Hexes? && ProperPiece(p) && ClosesPair(low)
      && u == 0x1_0000 + 0x400 * (QuadValue(high) - 0xD800) + (QuadValue(low) - 0xDC00)
    case _ => false
  }

  predicate WritesAll(ps: seq<Piece>, us: seq<nat>) {
    |ps| == |us| && forall i | 0 <= i < |us| :: IsScalar(us[i]) && Writes(ps[i], us[i])
  }

  predicate Scalars(us: seq<nat>) {
    forall i | 0 <= i < |us| :: IsScalar(us[i])
  }

  function Utf8All(us: seq<nat>): Text
    requires Scalars(us)
  {
    if us == [] then [] else Utf8(us[0]) + Utf8All(us[1..])
  }

  // Literal digits for a code unit.
  function Spelled(n: nat, capital: bool): (q: Quad)
    requires n < 0x1_0000
    ensures ProperQuad(q) && QuadValue(q) == n
  {
    var a := n / 16;
    var b := a / 16;
    Hexes(Hex(b / 16, capital), Hex(b % 16, capital), Hex(a % 16, capital), Hex(n % 16, capital))
  }

  // Every scalar can be written.
  lemma EveryScalarIsWritten(u: nat, capital: bool) returns (p: Piece)
    requires IsScalar(u)
    ensures Writes(p, u)
  {
    if u < 0x1_0000 {
      p := Code(Spelled(u, capital));
    } else {
      var v := u - 0x1_0000;
      p := Pair(Spelled(0xD800 + v / 0x400, capital), Spelled(0xDC00 + v % 0x400, capital));
    }
  }

  lemma WrittenMeaning(p: Piece, u: nat)
    requires IsScalar(u) && Writes(p, u)
    ensures ProperPiece(p) && PieceMeaning(p) == Utf8(u) && !(p.Code? && OpensPair(p.q))
  {}

  lemma {:induction false} AllWritten(ps: seq<Piece>, us: seq<nat>)
    requires WritesAll(ps, us)
    ensures ProperPieces(ps) && PiecesMeaning(ps) == Utf8All(us)
  {
    hide Utf8;
    if us != [] {
      WrittenMeaning(ps[0], us[0]);
      AllWritten(ps[1..], us[1..]);
    }
  }

  // A literal made of escapes only is decoded to the UTF-8 of what they stand for.
  lemma ScanEscapes(ps: seq<Piece>, us: seq<nat>, r: Text)
    requires WritesAll(ps, us)
    ensures ProperPieces(ps) && ScanString(PiecesText(ps, "\"" + r)) == Ok(Utf8All(us), r)
  {
    AllWritten(ps, us);
    ScanPieces(ps, "\"" + r);
    assert ("\"" + r)[1..] == r;
  }

  // The first examples of section 7 of RFC 3629, and the last character of section 7 of RFC 8259.
  lemma Utf8Examples()
    ensures Utf8(0x41) == "A" && Utf8(0x2262) == ['\U{E2}', '\U{89}', '\U{A2}']
    ensures Utf8(0x391) == ['\U{CE}', '\U{91}'] && Utf8(0x1D11E) == ['\U{F0}', '\U{9D}', '\U{84}', '\U{9E}']
  {}

  // A capital and a small digit in one escape.
  lemma ScanExample()
    ensures ScanString("\\u00Ea\"") == Ok(['\U{C3}', '\U{AA}'], [])
  {
    hide ScanString;
    var p := Code(Hexes(Hex(0, true), Hex(0, true), Hex(14, true), Hex(10, false)));
    ScanEscapes([p], [0xEA], []);
    assert [p][1..] == [] && [0xEA][1..] == [];
    assert Utf8(0xEA) == ['\U{C3}', '\U{AA}'] && Utf8All([]) == [];
    assert Utf8All([0xEA]) == ['\U{C3}', '\U{AA}'] + [];
    assert "\"" + [] == "\"";
    assert PiecesText([], "\"") == "\"";
    assert PieceText(p) == "\\u" + "00Ea" == "\\u00Ea";
    assert PiecesText([p], "\"") == "\\u00Ea" + "\"" == "\\u00Ea\"";
    assert Utf8All([0xEA]) == ['\U{C3}', '\U{AA}'];
  }

  // A decoder for well-formed UTF-8, by the ranges of the first byte.
  function FirstScalar(s: Text): (int, Text) {
    if s == [] then (-1, [])
    else
      var b := s[0] as int;
      if b < 0x80 then (b, s[1..])
      else if 0xC0 <= b < 0xE0 && |s| >= 2 then ((b - 0xC0) * 0x40 + Low6(s[1]), s[2..])
      else if 0xE0 <= b < 0xF0 && |s| >= 3 then (((b - 0xE0) * 0x40 + Low6(s[1])) * 0x40 + Low6(s[2]), s[3..])
      else if 0xF0 <= b && |s| >= 4 then
        ((((b - 0xF0) * 0x40 + Low6(s[1])) * 0x40 + Low6(s[2])) * 0x40 + Low6(s[3]), s[4..])
      else (-1, [])
  }

  function Low6(c: char): int {
    c as int - 0x80
  }

  function DecodeUtf8(s: Text): seq<int>
    decreases |s|
  {
    if s == [] then []
    else
      var (u, rest) := FirstScalar(s);
      if |rest| < |s| then [u] + DecodeUtf8(rest) else [u]
  }

  lemma DecodeOne(u: nat, r: Text)
    requires IsScalar(u)
    ensures FirstScalar(Utf8(u) + r) == (u, r)
  {
    var s := Utf8(u) + r;
    assert s[|Utf8(u)|..] == r;
    if u >= 0x800 {
      ShiftTwice(u);
      var v := u / 0x40;
      var w := v / 0x40;
      assert u == v * 0x40 + u % 0x40 && v == w * 0x40 + v % 0x40 && w == w / 0x40 * 0x40 + w % 0x40;
    }
  }

  // No information is lost: the decoded bytes spell the escaped scalars again.
  lemma {:induction false} DecodeAll(us: seq<nat>)
    requires Scalars(us)
    ensures DecodeUtf8(Utf8All(us)) == us
  {
    if us != [] {
      DecodeOne(us[0], Utf8All(us[1..]));
      DecodeAll(us[1..]);
    }
  }
}
