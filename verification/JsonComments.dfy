/** Comments and layout between the tokens of a document: the minifier drops exactly these. */
module JsonComments {
  import opened CText
  import opened JsonTree
  import opened JsonParse
  import opened JsonGrammar
  import opened JsonMinify
  import opened JsonTexts

  datatype Trivium = Layout(c: char) | LineComment(text: Text) | BlockComment(text: Text)

  predicate IsSpace(c: char) {
    c == ' ' || c == '\t' || c == '\r' || c == '\n'
  }

  // A block comment ends at the first star with a slash behind it, and the star of its own opening counts.
  predicate ProperTrivium(x: Trivium) {
    match x
    case Layout(c) => IsSpace(c)
    case LineComment(text) => '\n' !in text
    case BlockComment(text) =>
      var u := "*" + text;
      forall i | 0 <= i < |u| :: !(u[i] == '*' && (u + "*")[i + 1] == '/')
  }

  predicate ProperTrivia(xs: seq<Trivium>) {
    forall i | 0 <= i < |xs| :: ProperTrivium(xs[i])
  }

  // A line comment reaches to its newline.
  function TriviumText(x: Trivium, t: Text): Text {
    match x
    case Layout(c) => [c] + t
    case LineComment(text) => "//" + (text + ("\n" + t))
    case BlockComment(text) => "/*" + (text + ("*/" + t))
  }

  function TriviaText(xs: seq<Trivium>, t: Text): Text {
    if xs == [] then t else TriviumText(xs[0], TriviaText(xs[1..], t))
  }

  lemma {:induction false} LineDropped(text: Text, t: Text)
    requires '\n' !in text
    ensures DropLine(text + ("\n" + t)) == "\n" + t
  {
    if text == [] {
      assert text + ("\n" + t) == "\n" + t;
    } else {
      LineDropped(text[1..], t);
      assert (text + ("\n" + t))[1..] == text[1..] + ("\n" + t);
    }
  }

  lemma {:induction false} BlockSought(u: Text, t: Text)
    requires forall i | 0 <= i < |u| :: !(u[i] == '*' && (u + "*")[i + 1] == '/')
    ensures SeekBlockEnd(u + ("*/" + t)) == "*/" + t
  {
    var s := u + ("*/" + t);
    if u == [] {
      assert s == "*/" + t;
    } else {
      var v := u[1..];
      forall i | 0 <= i < |v| ensures !(v[i] == '*' && (v + "*")[i + 1] == '/') {
        assert v[i] == u[i + 1] && (v + "*")[i + 1] == (u + "*")[i + 2];
      }
      assert s[0] == u[0] && s[1] == (u + "*")[1];
      assert s[1..] == v + ("*/" + t);
      BlockSought(v, t);
    }
  }

  lemma TriviumDropped(x: Trivium, t: Text)
    requires ProperTrivium(x)
    ensures Closed(TriviumText(x, t)) == Closed(t) && (Closed(t) ==> Minify(TriviumText(x, t)) == Minify(t))
  {
    var s := TriviumText(x, t);
    match x {
      case Layout(c) =>
        assert s[1..] == t;
      case LineComment(text) =>
        var rest := "\n" + t;
        LineDropped("/" + text, t);
        assert s[1..] == "/" + text + rest && rest[1..] == t;
      case BlockComment(text) =>
        BlockSought("*" + text, t);
        assert s[1..] == "*" + text + ("*/" + t) && ("*/" + t)[2..] == t;
    }
  }

  lemma {:induction false} TriviaDropped(xs: seq<Trivium>, t: Text)
    requires ProperTrivia(xs)
    ensures Closed(TriviaText(xs, t)) == Closed(t) && (Closed(t) ==> Minify(TriviaText(xs, t)) == Minify(t))
  {
    if xs != [] {
      TriviaDropped(xs[1..], t);
      TriviumDropped(xs[0], TriviaText(xs[1..], t));
    }
  }

  // A token is a string literal, or a mark, word or number.
  datatype Token = Quote(pieces: seq<Piece>) | Sign(text: Text)

  predicate ProperToken(k: Token) {
    match k
    case Quote(ps) => ProperPieces(ps)
    case Sign(text) => forall i | 0 <= i < |text| :: !IsSpace(text[i]) && text[i] != '/' && text[i] != '"'
  }

  predicate ProperTokens(ks: seq<Token>) {
    forall i | 0 <= i < |ks| :: ProperToken(ks[i])
  }

  function TokenText(k: Token, t: Text): Text
    requires ProperToken(k)
  {
    match k
    case Quote(ps) => "\"" + PiecesText(ps, "\"" + t)
    case Sign(text) => text + t
  }

  function TokensText(ks: seq<Token>, t: Text): Text
    requires ProperTokens(ks)
  {
    if ks == [] then t else TokenText(ks[0], TokensText(ks[1..], t))
  }

  lemma KeepCode(q: Quad, t: Text)
    requires ProperQuad(q)
    ensures var s := "\\u" + QuadText(q) + t;
            && ClosedLiteral(s) == ClosedLiteral(t)
            && (ClosedLiteral(t) ==> MinifyLiteral(s) == "\\u" + QuadText(q) + MinifyLiteral(t))
  {
    var s := "\\u" + QuadText(q) + t;
    assert s[2..] == QuadText(q) + t && s[6..] == t && s[..6] == "\\u" + QuadText(q);
    UnitOf(q, t);
    CopyUnicode(s);
  }

  lemma KeepPair(high: Quad, low: Quad, t: Text)
    requires ProperQuad(high) && ProperQuad(low) && ClosedLiteral(t)
    ensures var w := "\\u" + QuadText(high) + "\\u" + QuadText(low);
            ClosedLiteral(w + t) && MinifyLiteral(w + t) == w + MinifyLiteral(t)
  {
    hide QuadText, ProperQuad, ClosedLiteral, MinifyLiteral;
    var h, l := "\\u" + QuadText(high), "\\u" + QuadText(low);
    KeepCode(low, t);
    KeepCode(high, l + t);
    Assoc(h, "\\u", QuadText(low));
    Assoc(h, l, t);
    Assoc(h, l, MinifyLiteral(t));
  }

  lemma KeepPiece(p: Piece, t: Text)
    requires ProperPiece(p) && ClosedLiteral(t)
    ensures ClosedLiteral(PieceText(p) + t) && MinifyLiteral(PieceText(p) + t) == PieceText(p) + MinifyLiteral(t)
  {
    match p {
      case Plain(c) => assert ([c] + t)[1..] == t;
      case Short(c) => assert (['\\', c] + t)[2..] == t;
      case Code(q) => KeepCode(q, t);
      case Pair(high, low) => KeepPair(high, low, t);
    }
  }

  lemma {:induction false} KeepPieces(ps: seq<Piece>, t: Text)
    requires ProperPieces(ps) && Closed(t)
    ensures ClosedLiteral(PiecesText(ps, "\"" + t))
    ensures MinifyLiteral(PiecesText(ps, "\"" + t)) == PiecesText(ps, "\"" + Minify(t))
  {
    hide PieceText;
    if ps == [] {
      assert ("\"" + t)[1..] == t;
    } else {
      KeepPieces(ps[1..], t);
      KeepPiece(ps[0], PiecesText(ps[1..], "\"" + t));
    }
  }

  lemma KeepToken(k: Token, t: Text)
    requires ProperToken(k) && Closed(t)
    ensures Closed(TokenText(k, t)) && Minify(TokenText(k, t)) == TokenText(k, Minify(t))
  {
    match k {
      case Quote(ps) =>
        KeepPieces(ps, t);
        assert TokenText(k, t)[1..] == PiecesText(ps, "\"" + t);
      case Sign(text) =>
        MinifyPlain(text, t);
    }
  }

  // The tokens with some layout and comments before each of them, and behind the last.
  function Spread(ks: seq<Token>, gaps: seq<seq<Trivium>>): Text
    requires ProperTokens(ks) && |gaps| == |ks| + 1
    decreases |ks|
  {
    if ks == [] then TriviaText(gaps[0], [])
    else TriviaText(gaps[0], TokenText(ks[0], Spread(ks[1..], gaps[1..])))
  }

  // Minifying leaves the tokens, whatever layout and comments stand between them.
  lemma {:induction false} SpreadMinified(ks: seq<Token>, gaps: seq<seq<Trivium>>)
    requires ProperTokens(ks) && |gaps| == |ks| + 1 && forall i | 0 <= i < |gaps| :: ProperTrivia(gaps[i])
    ensures Closed(Spread(ks, gaps)) && Minify(Spread(ks, gaps)) == TokensText(ks, [])
    decreases |ks|
  {
    if ks == [] {
      TriviaDropped(gaps[0], []);
    } else {
      SpreadMinified(ks[1..], gaps[1..]);
      var t := Spread(ks[1..], gaps[1..]);
      KeepToken(ks[0], t);
      TriviaDropped(gaps[0], TokenText(ks[0], t));
    }
  }

  // The tokens of a document, in order.
  function Tokens(d: Doc): seq<Token>
    requires ProperDoc(d)
    decreases d, 1
  {
    match d
    case WordNull => [Sign("null")]
    case WordFalse => [Sign("false")]
    case WordTrue => [Sign("true")]
    case Figure(n) => [Sign(NumeralText(n, []))]
    case Literal(ps, _) => [Quote(ps)]
    case List(_, slots) => [Sign("[")] + SlotsTokens(slots) + [Sign("]")]
    case Record(_, entries) => [Sign("{")] + EntriesTokens(entries) + [Sign("}")]
  }

  function SlotsTokens(slots: seq<Slot>): seq<Token>
    requires ProperSlots(slots)
    decreases slots, 0
  {
    if slots == [] then []
    else Tokens(slots[0].doc) + (if |slots| == 1 then [] else [Sign(",")] + SlotsTokens(slots[1..]))
  }

  function EntriesTokens(entries: seq<Entry>): seq<Token>
    requires ProperEntries(entries)
    decreases entries, 0
  {
    if entries == [] then []
    else
      [Quote(entries[0].name), Sign(":")] + Tokens(entries[0].doc)
      + (if |entries| == 1 then [] else [Sign(",")] + EntriesTokens(entries[1..]))
  }

  // The same document without any blanks.
  function Bare(d: Doc): Doc
    decreases d, 1
  {
    match d
    case List(_, slots) => List([], BareSlots(slots))
    case Record(_, entries) => Record([], BareEntries(entries))
    case _ => d
  }

  function BareSlots(slots: seq<Slot>): (r: seq<Slot>)
    ensures |r| == |slots|
    decreases slots, 0
  {
    if slots == [] then [] else [Slot([], Bare(slots[0].doc), [])] + BareSlots(slots[1..])
  }

  function BareEntries(entries: seq<Entry>): (r: seq<Entry>)
    ensures |r| == |entries|
    decreases entries, 0
  {
    if entries == [] then []
    else [Entry([], entries[0].name, [], [], Bare(entries[0].doc), [])] + BareEntries(entries[1..])
  }

  lemma {:induction false} BareMeans(d: Doc)
    requires ProperDoc(d)
    ensures ProperDoc(Bare(d)) && Meaning(Bare(d)) == Meaning(d)
    decreases d, 1
  {
    match d {
      case List(_, slots) => BareSlotsMean(slots);
      case Record(_, entries) => BareEntriesMean(entries);
      case _ =>
    }
  }

  lemma {:induction false} BareSlotsMean(slots: seq<Slot>)
    requires ProperSlots(slots)
    ensures ProperSlots(BareSlots(slots)) && SlotsMeaning(BareSlots(slots)) == SlotsMeaning(slots)
    decreases slots, 0
  {
    if slots != [] {
      BareMeans(slots[0].doc);
      BareSlotsMean(slots[1..]);
      assert BareSlots(slots)[1..] == BareSlots(slots[1..]);
    }
  }

  lemma {:induction false} BareEntriesMean(entries: seq<Entry>)
    requires ProperEntries(entries)
    ensures ProperEntries(BareEntries(entries)) && EntriesMeaning(BareEntries(entries)) == EntriesMeaning(entries)
    decreases entries, 0
  {
    if entries != [] {
      BareMeans(entries[0].doc);
      BareEntriesMean(entries[1..]);
      assert BareEntries(entries)[1..] == BareEntries(entries[1..]);
    }
  }

  lemma {:induction false} TokensJoined(a: seq<Token>, b: seq<Token>, t: Text)
    requires ProperTokens(a) && ProperTokens(b)
    ensures ProperTokens(a + b) && TokensText(a + b, t) == TokensText(a, TokensText(b, t))
  {
    if a == [] {
      assert a + b == b;
    } else {
      assert (a + b)[1..] == a[1..] + b;
      TokensJoined(a[1..], b, t);
    }
  }

  lemma OneSign(text: Text, t: Text)
    requires ProperToken(Sign(text))
    ensures ProperTokens([Sign(text)]) && TokensText([Sign(text)], t) == text + t
  {
    assert [Sign(text)][1..] == [];
  }

  lemma OneQuote(ps: seq<Piece>, t: Text)
    requires ProperPieces(ps)
    ensures ProperTokens([Quote(ps)]) && TokensText([Quote(ps)], t) == "\"" + PiecesText(ps, "\"" + t)
  {
    assert [Quote(ps)][1..] == [];
  }

  // The tokens written one behind the other are the bare document.
  lemma {:induction false} TokensOfBare(d: Doc, t: Text)
    requires ProperDoc(d)
    ensures ProperDoc(Bare(d)) && ProperTokens(Tokens(d)) && TokensText(Tokens(d), t) == DocText(Bare(d), t)
    decreases d, 1
  {
    hide ProperToken, TokensText;
    BareMeans(d);
    match d {
      case WordNull => Marks(); OneSign("null", t);
      case WordFalse => Marks(); OneSign("false", t);
      case WordTrue => Marks(); OneSign("true", t);
      case Figure(n) =>
        NumeralIsSign(n);
        OneSign(NumeralText(n, []), t);
        NumeralMore(n, [], t);
        assert [] + t == t;
      case Literal(ps, _) => OneQuote(ps, t);
      case List(_, slots) => TokensOfList(slots, t);
      case Record(_, entries) => TokensOfRecord(entries, t);
    }
  }

  lemma Marks()
    ensures ProperToken(Sign("null")) && ProperToken(Sign("false")) && ProperToken(Sign("true"))
    ensures ProperToken(Sign("[")) && ProperToken(Sign("]")) && ProperToken(Sign("{")) && ProperToken(Sign("}"))
    ensures ProperToken(Sign(",")) && ProperToken(Sign(":"))
  {}

  lemma {:induction false} DigitsAreSign(ds: seq<nat>, t: Text)
    requires Decimals(ds) && ProperToken(Sign(t))
    ensures ProperToken(Sign(DigitsText(ds, t)))
  {
    if ds != [] {
      DigitsAreSign(ds[1..], t);
      DigitPlace(ds[0]);
    }
  }

  lemma SignsJoined(a: Text, b: Text)
    requires ProperToken(Sign(a)) && ProperToken(Sign(b))
    ensures ProperToken(Sign(a + b))
  {}

  lemma ExponentIsSign(e: Exponent)
    requires e.Exponent? ==> Decimals(e.digits)
    ensures ProperToken(Sign(ExponentText(e, [])))
  {
    if e.Exponent? {
      DigitsAreSign(e.digits, []);
      SignsJoined(SignText(e.sign), DigitsText(e.digits, []));
      SignsJoined([if e.capital then 'E' else 'e'], SignText(e.sign) + DigitsText(e.digits, []));
    }
  }

  lemma NumeralIsSign(n: Numeral)
    requires ProperNumeral(n)
    ensures ProperToken(Sign(NumeralText(n, [])))
  {
    hide ExponentText, DigitsText;
    var e := ExponentText(n.exponent, []);
    ExponentIsSign(n.exponent);
    DigitsAreSign(n.fraction, e);
    SignsJoined(".", DigitsText(n.fraction, e));
    var f := FractionText(n.fraction, e);
    DigitsAreSign(n.whole, f);
    var w := DigitsText(n.whole, f);
    SignsJoined(if n.zero then "0" else "", w);
    SignsJoined(if n.minus then "-" else "", (if n.zero then "0" else "") + w);
  }

  lemma TokensOfList(slots: seq<Slot>, t: Text)
    requires ProperSlots(slots)
    ensures var d := List([], slots);
            ProperTokens(Tokens(d)) && ProperSlots(BareSlots(slots)) && TokensText(Tokens(d), t) == DocText(Bare(d), t)
    decreases slots, 1
  {
    hide ProperToken, TokensText;
    Marks();
    BareSlotsMean(slots);
    OneSign("]", t);
    if slots != [] {
      TokensOfSlots(slots, "]" + t);
    } else {
      TokensNone("]" + t);
    }
    TokensJoined(SlotsTokens(slots), [Sign("]")], t);
    OneSign("[", TokensText(SlotsTokens(slots), "]" + t));
    TokensJoined([Sign("[")], SlotsTokens(slots) + [Sign("]")], t);
    Assoc([Sign("[")], SlotsTokens(slots), [Sign("]")]);
    assert [] + ("]" + t) == "]" + t;
  }

  lemma TokensNone(t: Text)
    ensures ProperTokens([]) && TokensText([], t) == t
  {}

  lemma {:induction false} TokensOfSlots(slots: seq<Slot>, t: Text)
    requires slots != [] && ProperSlots(slots)
    ensures ProperTokens(SlotsTokens(slots)) && ProperSlots(BareSlots(slots))
    ensures TokensText(SlotsTokens(slots), t) == SlotsText(BareSlots(slots), t)
    decreases slots, 0
  {
    hide ProperToken, TokensText, DocText;
    Marks();
    BareSlotsMean(slots);
    BareSlotsMean(slots[1..]);
    var bare := BareSlots(slots);
    assert bare[1..] == BareSlots(slots[1..]);
    var more, u := [], t;
    TokensNone(t);
    if |slots| > 1 {
      TokensOfSlots(slots[1..], t);
      more, u := [Sign(",")] + SlotsTokens(slots[1..]), "," + SlotsText(bare[1..], t);
      OneSign(",", TokensText(SlotsTokens(slots[1..]), t));
      TokensJoined([Sign(",")], SlotsTokens(slots[1..]), t);
    }
    TokensOfBare(slots[0].doc, u);
    TokensJoined(Tokens(slots[0].doc), more, t);
    assert [] + u == u && [] + DocText(bare[0].doc, u) == DocText(bare[0].doc, u);
  }

  lemma TokensOfRecord(entries: seq<Entry>, t: Text)
    requires ProperEntries(entries)
    ensures var d := Record([], entries);
            && ProperTokens(Tokens(d)) && ProperEntries(BareEntries(entries))
            && TokensText(Tokens(d), t) == DocText(Bare(d), t)
    decreases entries, 1
  {
    hide ProperToken, TokensText;
    Marks();
    BareEntriesMean(entries);
    OneSign("}", t);
    if entries != [] {
      TokensOfEntries(entries, "}" + t);
    } else {
      TokensNone("}" + t);
    }
    TokensJoined(EntriesTokens(entries), [Sign("}")], t);
    OneSign("{", TokensText(EntriesTokens(entries), "}" + t));
    TokensJoined([Sign("{")], EntriesTokens(entries) + [Sign("}")], t);
    Assoc([Sign("{")], EntriesTokens(entries), [Sign("}")]);
    assert [] + ("}" + t) == "}" + t;
  }

  lemma {:induction false} TokensOfEntries(entries: seq<Entry>, t: Text)
    requires entries != [] && ProperEntries(entries)
    ensures ProperTokens(EntriesTokens(entries)) && ProperEntries(BareEntries(entries))
    ensures TokensText(EntriesTokens(entries), t) == EntriesText(BareEntries(entries), t)
    decreases entries, 0
  {
    hide ProperToken, TokensText, DocText, PiecesText;
    Marks();
    BareEntriesMean(entries);
    BareEntriesMean(entries[1..]);
    var bare := BareEntries(entries);
    assert bare[1..] == BareEntries(entries[1..]);
    var more, u := [], t;
    TokensNone(t);
    if |entries| > 1 {
      TokensOfEntries(entries[1..], t);
      more, u := [Sign(",")] + EntriesTokens(entries[1..]), "," + EntriesText(bare[1..], t);
      OneSign(",", TokensText(EntriesTokens(entries[1..]), t));
      TokensJoined([Sign(",")], EntriesTokens(entries[1..]), t);
    }
    var e := entries[0];
    TokensOfBare(e.doc, u);
    TokensJoined(Tokens(e.doc), more, t);
    EntryTokens(e.name, Tokens(e.doc) + more, t);
    var v := DocText(bare[0].doc, u);
    NoBlanks(e.name, v, u);
    Assoc([Quote(e.name), Sign(":")], Tokens(e.doc), more);
  }

  lemma EntryTokens(name: seq<Piece>, ks: seq<Token>, t: Text)
    requires ProperPieces(name) && ProperTokens(ks)
    ensures var all := [Quote(name), Sign(":")] + ks;
            ProperTokens(all)
            && TokensText(all, t) == "\"" + PiecesText(name, "\"" + (":" + TokensText(ks, t)))
  {
    hide ProperToken, TokensText, PiecesText;
    Marks();
    var v := TokensText(ks, t);
    OneSign(":", v);
    OneQuote(name, ":" + v);
    TokensJoined([Sign(":")], ks, t);
    TokensJoined([Quote(name)], [Sign(":")] + ks, t);
    assert [Quote(name), Sign(":")] + ks == [Quote(name)] + ([Sign(":")] + ks);
  }

  lemma NoBlanks(name: seq<Piece>, v: Text, u: Text)
    ensures [] + u == u && [] + v == v && [] + (":" + v) == ":" + v
  {}

  // A document with layout and comments between its tokens means, when minified, what it means without them.
  lemma CommentsMinified(d: Doc, gaps: seq<seq<Trivium>>)
    requires ProperDoc(d) && |gaps| == |Tokens(d)| + 1 && forall i | 0 <= i < |gaps| :: ProperTrivia(gaps[i])
    ensures ProperTokens(Tokens(d)) && Closed(Spread(Tokens(d), gaps))
    ensures ParseText(Minify(Spread(Tokens(d), gaps)), true) == Ok(Meaning(d), [])
  {
    hide ParseText, Tokens;
    TokensOfBare(d, []);
    BareMeans(d);
    SpreadMinified(Tokens(d), gaps);
    LooseRead([], Bare(d), []);
    assert [] + DocText(Bare(d), []) == DocText(Bare(d), []);
    SkipNothing();
  }

  // An instance of the star that counts twice: the comment is over before its text has begun.
  lemma SlashEndsComment()
    ensures Closed("/*/1") && Minify("/*/1") == "1"
  {
    var s := "/*/1";
    assert s[1..] == "*/1" && "*/1"[2..] == "1" && "1"[1..] == [];
    assert SeekBlockEnd("*/1") == "*/1";
    assert Closed([]) && Minify([]) == [] && Closed("1") && Minify("1") == ['1'] + [];
  }
}
