/** Literals and numerals by a grammar that writes them: the parser reads exactly these, each with its meaning. */
module JsonGrammar {
  import opened CText
  import opened JsonTree
  import opened JsonParse

  const DIGITS: Text := "0123456789"
  const SMALL: Text := "0123456789abcdef"
  const CAPITAL: Text := "0123456789ABCDEF"
  const NUMERIC: Text := "0123456789.eE+-"
  const SHORT: Text := "bfnrt"
  const CONTROL: Text := "\U{8}\U{C}\n\r\t"

  datatype Hex = Hex(value: nat, capital: bool)

  // What stands behind a \u: four hexadecimal digits, in any mix of cases, or four other characters.
  datatype Quad = Hexes(a: Hex, b: Hex, c: Hex, d: Hex) | Other(text: Text)

  // A string literal, piece by piece. A code unit that opens a surrogate pair takes the unit behind it along.
  datatype Piece = Plain(c: char) | Short(c: char) | Code(q: Quad) | Pair(high: Quad, low: Quad)

  datatype Sign = Unsigned | Plus | Minus

  datatype Exponent = NoExponent | Exponent(capital: bool, sign: Sign, digits: seq<nat>)

  datatype Numeral = Numeral(minus: bool, zero: bool, whole: seq<nat>, fraction: seq<nat>, exponent: Exponent)

  predicate ProperHex(h: Hex) {
    h.value < 16
  }

  function HexText(h: Hex): char
    requires ProperHex(h)
  {
    if h.capital then CAPITAL[h.value] else SMALL[h.value]
  }

  predicate ProperQuad(q: Quad) {
    match q
    case Hexes(a, b, c, d) => ProperHex(a) && ProperHex(b) && ProperHex(c) && ProperHex(d)
    case Other(t) =>
      && |t| == 4 && (forall i | 0 <= i < 4 :: t[i] != '"' && t[i] != '\\')
      && exists i | 0 <= i < 4 :: t[i] !in SMALL && t[i] !in CAPITAL
  }

  function QuadText(q: Quad): (t: Text)
    requires ProperQuad(q)
    ensures |t| == 4
  {
    match q
    case Hexes(a, b, c, d) => [HexText(a), HexText(b), HexText(c), HexText(d)]
    case Other(t) => t
  }

  function QuadValue(q: Quad): (n: nat)
    requires ProperQuad(q)
    ensures n < 0x1_0000
  {
    match q
    case Hexes(a, b, c, d) => ((a.value * 16 + b.value) * 16 + c.value) * 16 + d.value
    case Other(_) => 0
  }

  predicate OpensPair(q: Quad)
    requires ProperQuad(q)
  {
    0xD800 <= QuadValue(q) < 0xDC00
  }

  predicate ClosesPair(q: Quad)
    requires ProperQuad(q)
  {
    0xDC00 <= QuadValue(q) < 0xE000
  }

  predicate ProperPiece(p: Piece) {
    match p
    case Plain(c) => c != '"' && c != '\\'
    case Short(c) => c != 'u'
    case Code(q) => ProperQuad(q)
    case Pair(high, low) => ProperQuad(high) && ProperQuad(low) && OpensPair(high)
  }

  predicate ProperPieces(ps: seq<Piece>) {
    ps == [] ||
    (ProperPiece(ps[0]) && ProperPieces(ps[1..])
     && (ps[0].Code? && OpensPair(ps[0].q) && |ps| > 1 ==> !ps[1].Code? && !ps[1].Pair?))
  }

  function PieceText(p: Piece): (t: Text)
    requires ProperPiece(p)
    ensures t != []
  {
    match p
    case Plain(c) => [c]
    case Short(c) => ['\\', c]
    case Code(q) => "\\u" + QuadText(q)
    case Pair(high, low) => "\\u" + QuadText(high) + "\\u" + QuadText(low)
  }

  // The text of the pieces, followed by t.
  function PiecesText(ps: seq<Piece>, t: Text): Text
    requires ProperPieces(ps)
  {
    if ps == [] then t else PieceText(ps[0]) + PiecesText(ps[1..], t)
  }

  function ShortMeaning(c: char): char {
    if c == SHORT[0] then CONTROL[0]
    else if c == SHORT[1] then CONTROL[1]
    else if c == SHORT[2] then CONTROL[2]
    else if c == SHORT[3] then CONTROL[3]
    else if c == SHORT[4] then CONTROL[4]
    else c
  }

  // A zero and half a surrogate pair mean nothing.
  function PieceMeaning(p: Piece): Text
    requires ProperPiece(p)
  {
    match p
    case Plain(c) => [c]
    case Short(c) => [ShortMeaning(c)]
    case Code(q) =>
      if QuadValue(q) == 0 || OpensPair(q) || ClosesPair(q) then [] else Utf8(QuadValue(q))
    case Pair(high, low) =>
      if ClosesPair(low) then Utf8(0x1_0000 + 0x400 * (QuadValue(high) - 0xD800) + QuadValue(low) - 0xDC00) else []
  }

  function PiecesMeaning(ps: seq<Piece>): Text
    requires ProperPieces(ps)
  {
    if ps == [] then [] else PieceMeaning(ps[0]) + PiecesMeaning(ps[1..])
  }

  // A character taken from one of the two alphabets has the value of its place there.
  lemma HexPlace(h: Hex)
    requires ProperHex(h)
    ensures IsHex(HexText(h)) && HexValue(HexText(h)) == h.value
  {}

  // And every digit the parser takes is there.
  lemma HexOf(c: char) returns (h: Hex)
    requires IsHex(c)
    ensures ProperHex(h) && HexText(h) == c
  {
    h := if 'A' <= c <= 'F' then Hex(10 + c as int - 'A' as int, true)
         else if IsDigit(c) then Hex(c as int - '0' as int, false)
         else Hex(10 + c as int - 'a' as int, false);
  }

  lemma Alphabets(c: char)
    ensures IsHex(c) <==> c in SMALL || c in CAPITAL
  {
    if IsHex(c) {
      var h := HexOf(c);
    } else if c in SMALL {
      var i :| 0 <= i < 16 && SMALL[i] == c;
      HexPlace(Hex(i, false));
    } else if c in CAPITAL {
      var i :| 0 <= i < 16 && CAPITAL[i] == c;
      HexPlace(Hex(i, true));
    }
  }

  // The four characters behind a \u have the value the grammar gives them.
  lemma UnitOf(q: Quad, t: Text)
    requires ProperQuad(q)
    ensures StartsUnit(QuadText(q) + t) && Unit(QuadText(q) + t) == QuadValue(q) < 0x1_0000
  {
    var s := QuadText(q) + t;
    match q {
      case Hexes(a, b, c, d) =>
        HexPlace(a);
        HexPlace(b);
        HexPlace(c);
        HexPlace(d);
      case Other(text) =>
        var i :| 0 <= i < 4 && text[i] !in SMALL && text[i] !in CAPITAL;
        Alphabets(text[i]);
        assert s[i] == text[i] && forall j | 0 <= j < 4 :: s[j] == text[j];
    }
  }

  lemma QuadOf(s: Text) returns (q: Quad)
    requires StartsUnit(s)
    ensures ProperQuad(q) && QuadText(q) == s[..4] && QuadText(q) + s[4..] == s && QuadValue(q) == Unit(s)
  {
    if StartsHex4(s) {
      var a := HexOf(s[0]);
      var b := HexOf(s[1]);
      var c := HexOf(s[2]);
      var d := HexOf(s[3]);
      q := Hexes(a, b, c, d);
    } else {
      q := Other(s[..4]);
      assert forall i | 0 <= i < 4 :: s[..4][i] == s[i];
      var i :| 0 <= i < 4 && !IsHex(s[i]);
      Alphabets(s[i]);
    }
    UnitOf(q, s[4..]);
    assert QuadText(q) + s[4..] == s;
  }

  predicate StartsCode(t: Text) {
    |t| >= 2 && t[0] == '\\' && t[1] == 'u'
  }

  lemma ScanCode(q: Quad, t: Text)
    requires ProperQuad(q) && (OpensPair(q) ==> !StartsCode(t))
    ensures ScanString("\\u" + QuadText(q) + t) == Prepend(PieceMeaning(Code(q)), ScanString(t))
  {
    hide ScanString, Prepend, Utf8, Unit, StartsUnit, QuadText, QuadValue, ProperQuad;
    var s := "\\u" + QuadText(q) + t;
    assert s[2..] == QuadText(q) + t && s[6..] == t;
    assert |s| >= 8 ==> s[6] == t[0] && s[7] == t[1];
    UnitOf(q, t);
    ScanEscape(s);
  }

  lemma ScanPairOf(high: Quad, low: Quad, t: Text)
    requires ProperQuad(high) && ProperQuad(low) && OpensPair(high)
    ensures ScanString("\\u" + QuadText(high) + "\\u" + QuadText(low) + t)
         == Prepend(PieceMeaning(Pair(high, low)), ScanString(t))
  {
    hide ScanString, Prepend, Utf8, Unit, StartsUnit, QuadText, QuadValue, ProperQuad;
    var s := "\\u" + QuadText(high) + "\\u" + QuadText(low) + t;
    var r := "\\u" + QuadText(low) + t;
    assert s[2..] == QuadText(high) + r && s[8..] == QuadText(low) + t && s[12..] == t;
    assert s[6] == '\\' && s[7] == 'u';
    UnitOf(high, r);
    UnitOf(low, t);
    ScanEscape(s);
  }

  lemma ScanPiece(p: Piece, t: Text)
    requires ProperPiece(p) && (p.Code? && OpensPair(p.q) ==> !StartsCode(t))
    ensures ScanString(PieceText(p) + t) == Prepend(PieceMeaning(p), ScanString(t))
  {
    match p {
      case Plain(c) => assert ([c] + t)[1..] == t;
      case Short(c) =>
        assert (['\\', c] + t)[2..] == t;
        assert Unescape(c) == ShortMeaning(c);
      case Code(q) => ScanCode(q, t);
      case Pair(high, low) => ScanPairOf(high, low, t);
    }
  }

  // A literal behind its opening quote, up to its closing quote or to the end of the text, whatever pieces it has.
  lemma {:induction false} ScanPieces(ps: seq<Piece>, t: Text)
    requires ProperPieces(ps) && (t == [] || t[0] == '"')
    ensures ScanString(PiecesText(ps, t)) == Ok(PiecesMeaning(ps), if t == [] then [] else t[1..])
  {
    hide ScanString, PieceText, PieceMeaning;
    if ps == [] {
      ScanNothing(t);
    } else {
      ScanPieces(ps[1..], t);
      if |ps| > 1 {
        NextPiece(ps[1], PiecesText(ps[1..][1..], t));
      }
      ScanPiece(ps[0], PiecesText(ps[1..], t));
    }
  }

  lemma ScanNothing(t: Text)
    requires t == [] || t[0] == '"'
    ensures ScanString(t) == Ok([], if t == [] then [] else t[1..])
  {}

  lemma NextPiece(p: Piece, t: Text)
    requires ProperPiece(p)
    ensures StartsCode(PieceText(p) + t) ==> p.Code? || p.Pair?
  {}

  // Every literal that is read is made of pieces.
  lemma {:induction false} ReadPieces(s: Text) returns (ps: seq<Piece>, closed: bool)
    requires ScanString(s).Ok?
    ensures ProperPieces(ps) && PiecesMeaning(ps) == ScanString(s).value
    ensures closed ==> s == PiecesText(ps, "\"" + ScanString(s).rest)
    ensures !closed ==> s == PiecesText(ps, []) && ScanString(s).rest == []
    ensures StartsCode(s) ==> ps != [] && (ps[0].Code? || ps[0].Pair?)
    ensures ps != [] && (ps[0].Code? || ps[0].Pair?) ==> StartsCode(s)
    decreases |s|
  {
    if s == [] {
      ps, closed := [], false;
    } else if s[0] == '"' {
      ps, closed := [], true;
      assert "\"" + s[1..] == s;
    } else {
      var p, t := ReadPiece(s);
      var more;
      more, closed := ReadPieces(t);
      ps := [p] + more;
      assert ps[1..] == more;
    }
  }

  lemma ReadPiece(s: Text) returns (p: Piece, t: Text)
    requires s != [] && s[0] != '"' && ScanString(s).Ok?
    ensures ProperPiece(p) && s == PieceText(p) + t && |t| < |s|
    ensures ScanString(t).Ok? && ScanString(s).rest == ScanString(t).rest
    ensures ScanString(s).value == PieceMeaning(p) + ScanString(t).value
    ensures p.Code? && OpensPair(p.q) ==> !StartsCode(t)
    ensures StartsCode(s) <==> p.Code? || p.Pair?
  {
    if s[0] != '\\' {
      p, t := Plain(s[0]), s[1..];
    } else if s[1] != 'u' {
      p, t := Short(s[1]), s[2..];
    } else {
      p, t := ReadCode(s);
      return;
    }
    assert s == PieceText(p) + t;
    ScanPiece(p, t);
  }

  lemma CodeFirst(s: Text, q: Quad)
    requires StartsCode(s) && |s| >= 6 && ProperQuad(q) && QuadText(q) == s[2..][..4]
    ensures "\\u" + QuadText(q) + s[6..] == s
  {
    hide QuadText;
  }

  lemma ReadCode(s: Text) returns (p: Piece, t: Text)
    requires StartsCode(s) && ScanString(s).Ok?
    ensures ProperPiece(p) && s == PieceText(p) + t && |t| < |s| && (p.Code? || p.Pair?)
    ensures ScanString(t).Ok? && ScanString(s).rest == ScanString(t).rest
    ensures ScanString(s).value == PieceMeaning(p) + ScanString(t).value
    ensures p.Code? && OpensPair(p.q) ==> !StartsCode(t)
  {
    hide QuadText, QuadValue, Unit, StartsUnit, Utf8, ProperQuad;
    var q := QuadOf(s[2..]);
    CodeFirst(s, q);
    if OpensPair(q) && StartsCode(s[6..]) {
      var low := QuadOf(s[8..]);
      assert s[6..][2..] == s[8..] && s[6..][6..] == s[12..];
      CodeFirst(s[6..], low);
      p, t := Pair(q, low), s[12..];
      Assoc("\\u" + QuadText(q), "\\u" + QuadText(low), t);
      Assoc("\\u" + QuadText(q), "\\u", QuadText(low));
    } else {
      p, t := Code(q), s[6..];
    }
    ScanPiece(p, t);
  }

  predicate Decimals(ds: seq<nat>) {
    forall i | 0 <= i < |ds| :: ds[i] < 10
  }

  // Sign, integer, fraction and exponent; a zero may stand before other digits, and digits may be missing.
  predicate ProperNumeral(n: Numeral) {
    && Decimals(n.whole) && Decimals(n.fraction) && (n.whole != [] ==> n.whole[0] != 0)
    && (n.minus || n.zero || n.whole != []) && (n.exponent.Exponent? ==> Decimals(n.exponent.digits))
  }

  // The digits, followed by t.
  function DigitsText(ds: seq<nat>, t: Text): Text
    requires Decimals(ds)
  {
    if ds == [] then t else [DIGITS[ds[0]]] + DigitsText(ds[1..], t)
  }

  function ExponentText(e: Exponent, t: Text): Text
    requires e.Exponent? ==> Decimals(e.digits)
  {
    match e
    case NoExponent => t
    case Exponent(capital, sign, digits) =>
      [if capital then 'E' else 'e']
      + (SignText(sign) + DigitsText(digits, t))
  }

  function FractionText(ds: seq<nat>, t: Text): Text
    requires Decimals(ds)
  {
    if ds == [] then t else "." + DigitsText(ds, t)
  }

  function NumeralText(n: Numeral, t: Text): Text
    requires ProperNumeral(n)
  {
    (if n.minus then "-" else "")
    + ((if n.zero then "0" else "")
       + DigitsText(n.whole, FractionText(n.fraction, ExponentText(n.exponent, t))))
  }

  // Positional value.
  function ValueOf(ds: seq<nat>): nat {
    if ds == [] then 0 else 10 * ValueOf(ds[..|ds| - 1]) + ds[|ds| - 1]
  }

  function ExponentValue(e: Exponent): int {
    match e
    case NoExponent => 0
    case Exponent(_, sign, digits) => if sign == Minus then 0 - ValueOf(digits) else ValueOf(digits)
  }

  // The digits as an integer, times ten to the written exponent less the number of fraction digits.
  function NumeralMeaning(n: Numeral): Json {
    var m := ValueOf(n.whole + n.fraction);
    Number(if n.minus then 0 - m else m, ExponentValue(n.exponent) - |n.fraction|)
  }

  predicate EndsNumeral(t: Text) {
    t == [] || t[0] !in NUMERIC
  }

  lemma DigitPlace(d: nat)
    requires d < 10
    ensures IsDigit(DIGITS[d]) && DigitValue(DIGITS[d]) == d
    ensures if d == 0 then DIGITS[d] == '0' else '1' <= DIGITS[d] <= '9'
  {}

  lemma DigitOf(c: char) returns (d: nat)
    requires IsDigit(c)
    ensures d < 10 && DIGITS[d] == c && d == DigitValue(c)
  {
    d := c as int - '0' as int;
  }

  lemma NoDigit(t: Text)
    requires EndsNumeral(t)
    ensures t == [] || !(IsDigit(t[0]) || t[0] == '.' || t[0] == 'e' || t[0] == 'E' || t[0] == '+' || t[0] == '-')
  {
    if t != [] {
      IsNumeric(t[0]);
    }
  }

  lemma IsNumeric(c: char)
    ensures IsDigit(c) || c == '.' || c == 'e' || c == 'E' || c == '+' || c == '-' ==> c in NUMERIC
  {
    if IsDigit(c) {
      var d := DigitOf(c);
      assert DIGITS[d] == NUMERIC[d];
    } else {
      assert NUMERIC[10] == '.' && NUMERIC[11] == 'e' && NUMERIC[12] == 'E';
      assert NUMERIC[13] == '+' && NUMERIC[14] == '-';
    }
  }

  lemma {:induction false} TakeMore(ds: seq<nat>, es: seq<nat>, t: Text)
    requires Decimals(ds) && Decimals(es) && (t == [] || !IsDigit(t[0]))
    ensures TakeDigits(DigitsText(es, t), ValueOf(ds)) == (ValueOf(ds + es), t)
    decreases es
  {
    if es == [] {
      assert ds + es == ds;
    } else {
      DigitPlace(es[0]);
      var more := ds + [es[0]];
      assert more[..|more| - 1] == ds && ds + es == more + es[1..];
      assert DigitsText(es, t)[1..] == DigitsText(es[1..], t);
      TakeMore(more, es[1..], t);
    }
  }

  lemma DigitsLength(ds: seq<nat>, t: Text)
    requires Decimals(ds)
    ensures |DigitsText(ds, t)| == |ds| + |t|
  {}

  lemma WholeRead(n: Numeral, t: Text)
    requires ProperNumeral(n) && (t == [] || !IsDigit(t[0]))
    ensures IntPart(WholeText(n, t)) == (ValueOf(n.whole), t)
  {
    hide ValueOf, TakeDigits, IntPart, DropIf;
    var u := DigitsText(n.whole, t);
    ValueOfNone();
    if n.whole != [] {
      DigitPlace(n.whole[0]);
      TakeMore([], n.whole, t);
      assert [] + n.whole == n.whole;
      assert u[0] == DIGITS[n.whole[0]];
    }
    ZeroDropped(n.zero, u);
    IntParts(WholeText(n, t), u, ValueOf(n.whole), t);
  }

  lemma ZeroDropped(zero: bool, u: Text)
    requires u == [] || u[0] != '0'
    ensures DropIf((if zero then "0" else "") + u, '0') == u
  {
    assert ("0" + u)[1..] == u && "" + u == u;
  }

  lemma IntParts(s: Text, u: Text, m: int, t: Text)
    requires DropIf(s, '0') == u
    requires if u != [] && '1' <= u[0] <= '9' then TakeDigits(u, 0) == (m, t) else m == 0 && t == u
    ensures IntPart(s) == (m, t)
  {
    hide TakeDigits, DropIf;
  }

  lemma ValueOfNone()
    ensures ValueOf([]) == 0
  {}

  lemma FractionRead(n: Numeral, t: Text)
    requires ProperNumeral(n) && (t == [] || !(IsDigit(t[0]) || t[0] == '.'))
    ensures FracPart(FractionText(n.fraction, t), ValueOf(n.whole))
         == (ValueOf(n.whole + n.fraction), -|n.fraction|, t)
  {
    if n.fraction == [] {
      assert n.whole + [] == n.whole;
    } else {
      var s := FractionText(n.fraction, t);
      DigitPlace(n.fraction[0]);
      assert s[1..] == DigitsText(n.fraction, t);
      TakeMore(n.whole, n.fraction, t);
      DigitsLength(n.fraction, t);
    }
  }

  // The sign in front of the digits, and the digits behind it.
  function SignOf(s: Text): Sign {
    if StartsWith(s, '-') then Minus else if StartsWith(s, '+') then Plus else Unsigned
  }

  lemma ExpUnfold(s: Text, u: Text)
    requires s != [] && (s[0] == 'e' || s[0] == 'E') && s[1..] == SignText(SignOf(s[1..])) + u
    ensures var (e, rest) := TakeDigits(u, 0);
            ExpPart(s) == (if SignOf(s[1..]) == Minus then 0 - e else e, rest)
  {
    hide TakeDigits;
    var t := s[1..];
    assert SignOf(t) == Unsigned ==> t == u;
    assert SignOf(t) != Unsigned ==> t[1..] == u && s[2..] == u;
  }

  lemma SignBack(sign: Sign, u: Text)
    requires u == [] || (u[0] != '-' && u[0] != '+')
    ensures SignOf(SignText(sign) + u) == sign
  {}

  lemma ExponentRead(e: Exponent, t: Text)
    requires (e.Exponent? ==> Decimals(e.digits)) && EndsNumeral(t)
    ensures ExpPart(ExponentText(e, t)) == (ExponentValue(e), t)
  {
    hide ValueOf, TakeDigits, SignText, SignOf;
    NoDigit(t);
    if e.Exponent? {
      var s, u := ExponentText(e, t), DigitsText(e.digits, t);
      TakeMore([], e.digits, t);
      ValueOfNone();
      assert [] + e.digits == e.digits;
      if e.digits != [] {
        DigitPlace(e.digits[0]);
      }
      SignBack(e.sign, u);
      assert s[1..] == SignText(e.sign) + u;
      hide ExpPart;
      ExpUnfold(s, u);
    }
  }

  // The integer part of a numeral, followed by t.
  function WholeText(n: Numeral, t: Text): Text
    requires Decimals(n.whole)
  {
    (if n.zero then "0" else "") + DigitsText(n.whole, t)
  }

  // Every numeral has the value that its digits give it by their places.
  lemma NumeralRead(n: Numeral, t: Text)
    requires ProperNumeral(n) && EndsNumeral(t)
    ensures ParseNumber(NumeralText(n, t)) == Ok(NumeralMeaning(n), t)
    ensures var s := NumeralText(n, t);
            s != [] && (s[0] == '-' || IsDigit(s[0]))
  {
    hide IntPart, FracPart, ExpPart, ValueOf, ExponentText, FractionText, ExponentValue, EndsNumeral, DigitsText;
    hide ParseNumber, NumeralMeaning, DropIf, StartsWith, Decimals, WholeText;
    var e := ExponentText(n.exponent, t);
    var f := FractionText(n.fraction, e);
    var w := WholeText(n, f);
    ExponentRead(n.exponent, t);
    ExponentStart(n.exponent, t);
    FractionRead(n, e);
    FractionStart(n.fraction, e);
    WholeRead(n, f);
    NumeralStart(n, f);
    NumeralParts(n, t);
    SignedWhole(n.minus, w);
    NumberParts(NumeralText(n, t), w, ValueOf(n.whole), f, ValueOf(n.whole + n.fraction), -|n.fraction|, e,
                ExponentValue(n.exponent), t);
    MeaningParts(n);
  }

  lemma NumeralParts(n: Numeral, t: Text)
    requires ProperNumeral(n)
    ensures NumeralText(n, t)
         == (if n.minus then "-" else "") + WholeText(n, FractionText(n.fraction, ExponentText(n.exponent, t)))
  {}

  lemma MeaningParts(n: Numeral)
    ensures NumeralMeaning(n)
         == Number(if n.minus then 0 - ValueOf(n.whole + n.fraction) else ValueOf(n.whole + n.fraction),
                   -|n.fraction| + ExponentValue(n.exponent))
  {}

  lemma NumberParts(s: Text, w: Text, m0: int, f: Text, m: int, scale: int, e: Text, x: int, t: Text)
    requires DropIf(s, '-') == w && IntPart(w) == (m0, f) && FracPart(f, m0) == (m, scale, e) && ExpPart(e) == (x, t)
    ensures ParseNumber(s) == Ok(Number(if StartsWith(s, '-') then -m else m, scale + x), t)
  {
    hide IntPart, FracPart, ExpPart, DropIf;
  }

  lemma ExponentStart(e: Exponent, t: Text)
    requires (e.Exponent? ==> Decimals(e.digits)) && EndsNumeral(t)
    ensures var s := ExponentText(e, t);
            s == [] || !(IsDigit(s[0]) || s[0] == '.')
  {
    NoDigit(t);
  }

  lemma FractionStart(ds: seq<nat>, t: Text)
    requires Decimals(ds) && (t == [] || !IsDigit(t[0]))
    ensures var s := FractionText(ds, t);
            s == [] || !IsDigit(s[0])
  {}

  lemma SignedWhole(minus: bool, w: Text)
    requires !minus ==> w != [] && w[0] != '-'
    ensures var s := (if minus then "-" else "") + w;
            DropIf(s, '-') == w && StartsWith(s, '-') == minus && s != [] && (minus ==> s[0] == '-')
            && (!minus ==> s[0] == w[0])
  {
    if minus {
      assert ("-" + w)[1..] == w;
    } else {
      assert "" + w == w;
    }
  }

  lemma NumeralStart(n: Numeral, f: Text)
    requires ProperNumeral(n)
    ensures var w := WholeText(n, f);
            n.minus || (w != [] && IsDigit(w[0]) && w[0] != '-')
  {
    if n.whole != [] {
      DigitPlace(n.whole[0]);
    }
  }

  lemma {:induction false} ReadDigits(s: Text, n: int) returns (ds: seq<nat>)
    ensures Decimals(ds) && DigitsText(ds, TakeDigits(s, n).1) == s
    ensures s != [] && IsDigit(s[0]) ==> ds != [] && DIGITS[ds[0]] == s[0]
    decreases |s|
  {
    if s == [] || !IsDigit(s[0]) {
      ds := [];
    } else {
      var d := DigitOf(s[0]);
      var more := ReadDigits(s[1..], n * 10 + DigitValue(s[0]));
      ds := [d] + more;
      assert ds[1..] == more;
    }
  }

  lemma ReadWhole(s: Text) returns (zero: bool, ds: seq<nat>)
    ensures Decimals(ds) && (ds != [] ==> ds[0] != 0) && IntPart(s).0 == ValueOf(ds)
    ensures s == (if zero then "0" else "") + DigitsText(ds, IntPart(s).1)
    ensures s != [] && IsDigit(s[0]) ==> zero || ds != []
  {
    zero := StartsWith(s, '0');
    var t := DropIf(s, '0');
    ds := [];
    if t != [] && '1' <= t[0] <= '9' {
      ds := ReadDigits(t, 0);
      DigitPlace(ds[0]);
      TakeMore([], ds, TakeDigits(t, 0).1);
      assert [] + ds == ds;
    }
    assert zero ==> s == "0" + t;
  }

  lemma ReadFraction(s: Text, whole: seq<nat>) returns (ds: seq<nat>)
    requires Decimals(whole)
    ensures Decimals(ds)
    ensures var r := FracPart(s, ValueOf(whole));
            r.0 == ValueOf(whole + ds) && r.1 == -|ds| && s == FractionText(ds, r.2)
  {
    ds := [];
    if |s| >= 2 && s[0] == '.' && IsDigit(s[1]) {
      var m := ValueOf(whole);
      var t := TakeDigits(s[1..], m).1;
      ds := ReadDigits(s[1..], m);
      TakeMore(whole, ds, t);
      DigitsLength(ds, t);
      assert s == "." + s[1..];
    } else {
      assert whole + [] == whole;
    }
  }

  lemma ReadExponent(s: Text) returns (e: Exponent)
    ensures e.Exponent? ==> Decimals(e.digits)
    ensures ExpPart(s).0 == ExponentValue(e) && s == ExponentText(e, ExpPart(s).1)
  {
    hide ValueOf, TakeDigits;
    e := NoExponent;
    if s != [] && (s[0] == 'e' || s[0] == 'E') {
      hide ExpPart;
      var sign := SignOf(s[1..]);
      var u := if sign == Unsigned then s[1..] else s[2..];
      SignedDigits(s[1..], u);
      ExpUnfold(s, u);
      var ds := ReadDigits(u, 0);
      ValueOfNone();
      TakeMore([], ds, TakeDigits(u, 0).1);
      assert [] + ds == ds;
      e := Exponent(s[0] == 'E', sign, ds);
      HeadTail(s);
    }
  }

  function SignText(sign: Sign): Text {
    match sign
    case Unsigned => ""
    case Plus => "+"
    case Minus => "-"
  }

  lemma SignedDigits(s: Text, u: Text)
    requires u == if SignOf(s) == Unsigned then s else s[1..]
    ensures s == SignText(SignOf(s)) + u
  {}

  // Every number that is read is a numeral.
  lemma ReadNumeral(s: Text) returns (n: Numeral)
    requires s != [] && (s[0] == '-' || IsDigit(s[0]))
    ensures ProperNumeral(n) && s == NumeralText(n, ParseNumber(s).rest)
    ensures ParseNumber(s).value == NumeralMeaning(n)
  {
    hide IntPart, FracPart, ExpPart, ValueOf;
    var minus := s[0] == '-';
    var s0 := DropIf(s, '-');
    var zero, whole := ReadWhole(s0);
    var s1 := IntPart(s0).1;
    var fraction := ReadFraction(s1, whole);
    var s2 := FracPart(s1, ValueOf(whole)).2;
    var exponent := ReadExponent(s2);
    n := Numeral(minus, zero, whole, fraction, exponent);
    assert s == (if minus then "-" else "") + s0;
  }
}
