/** JSON texts by a grammar that writes them: the parser accepts exactly these, each with its meaning. */
module JsonTexts {
  import opened CText
  import opened JsonTree
  import opened JsonParse
  import opened JsonClosed
  import opened JsonGrammar

  // A value as it stands in a text, with the blanks around its parts. A literal may lack its closing quote.
  datatype Doc =
    | WordNull
    | WordFalse
    | WordTrue
    | Figure(n: Numeral)
    | Literal(pieces: seq<Piece>, closed: bool)
    | List(gap: Text, slots: seq<Slot>)
    | Record(gap: Text, entries: seq<Entry>)

  datatype Slot = Slot(before: Text, doc: Doc, after: Text)

  datatype Entry = Entry(before: Text, name: seq<Piece>, colon: Text, gap: Text, doc: Doc, after: Text)

  // All literals are closed; only the brackets of an empty list or record have a gap of their own.
  predicate ProperDoc(d: Doc)
    decreases d, 1
  {
    match d
    case Figure(n) => ProperNumeral(n)
    case Literal(ps, closed) => ProperPieces(ps) && closed
    case List(gap, slots) => Blank(gap) && ProperSlots(slots)
    case Record(gap, entries) => Blank(gap) && ProperEntries(entries)
    case _ => true
  }

  predicate ProperSlots(slots: seq<Slot>)
    decreases slots, 0
  {
    slots == [] ||
    (Blank(slots[0].before) && ProperDoc(slots[0].doc) && Blank(slots[0].after) && ProperSlots(slots[1..]))
  }

  predicate ProperEntries(entries: seq<Entry>)
    decreases entries, 0
  {
    entries == [] ||
    var e := entries[0];
    Blank(e.before) && ProperPieces(e.name) && Blank(e.colon) && Blank(e.gap) && ProperDoc(e.doc) && Blank(e.after)
    && ProperEntries(entries[1..])
  }

  // A lone literal may run to the end of the text.
  predicate IsOpen(d: Doc) {
    d.Literal? && !d.closed
  }

  predicate ProperText(d: Doc) {
    ProperDoc(d) || (IsOpen(d) && ProperPieces(d.pieces))
  }

  // The text of d, followed by t.
  function DocText(d: Doc, t: Text): Text
    requires ProperText(d)
    decreases d, 1
  {
    match d
    case WordNull => "null" + t
    case WordFalse => "false" + t
    case WordTrue => "true" + t
    case Figure(n) => NumeralText(n, t)
    case Literal(ps, closed) => "\"" + PiecesText(ps, if closed then "\"" + t else t)
    case List(gap, slots) => "[" + if slots == [] then gap + ("]" + t) else SlotsText(slots, "]" + t)
    case Record(gap, entries) => "{" + if entries == [] then gap + ("}" + t) else EntriesText(entries, "}" + t)
  }

  function SlotsText(slots: seq<Slot>, t: Text): Text
    requires slots != [] && ProperSlots(slots)
    decreases slots, 0
  {
    slots[0].before
    + DocText(slots[0].doc, slots[0].after + if |slots| == 1 then t else "," + SlotsText(slots[1..], t))
  }

  function EntriesText(entries: seq<Entry>, t: Text): Text
    requires entries != [] && ProperEntries(entries)
    decreases entries, 0
  {
    var e := entries[0];
    e.before + ("\"" + PiecesText(e.name, "\"" + (e.colon + (":" + (e.gap
      + DocText(e.doc, e.after + if |entries| == 1 then t else "," + EntriesText(entries[1..], t)))))))
  }

  function Meaning(d: Doc): Json
    requires ProperText(d)
    decreases d, 1
  {
    match d
    case WordNull => Null
    case WordFalse => False
    case WordTrue => True
    case Figure(n) => NumeralMeaning(n)
    case Literal(ps, _) => String(PiecesMeaning(ps))
    case List(_, slots) => Array(SlotsMeaning(slots))
    case Record(_, entries) => Object(EntriesMeaning(entries))
  }

  function SlotsMeaning(slots: seq<Slot>): seq<Json>
    requires ProperSlots(slots)
    decreases slots, 0
  {
    if slots == [] then [] else [Meaning(slots[0].doc)] + SlotsMeaning(slots[1..])
  }

  function EntriesMeaning(entries: seq<Entry>): seq<Member>
    requires ProperEntries(entries)
    decreases entries, 0
  {
    if entries == [] then []
    else [Member(PiecesMeaning(entries[0].name), Meaning(entries[0].doc))] + EntriesMeaning(entries[1..])
  }

  // What may follow d: a number must not go on, and behind an open literal there is nothing.
  predicate MayFollow(d: Doc, t: Text) {
    (d.Figure? ==> EndsNumeral(t)) && (IsOpen(d) ==> t == [])
  }

  lemma DocStart(d: Doc, t: Text)
    requires ProperText(d)
    ensures var s := DocText(d, t);
            s != [] && s[0] > ' ' && s[0] != ']' && s[0] != '}'
  {
    if d.Figure? {
      FigureStart(d.n, t);
    }
  }

  lemma FigureStart(n: Numeral, t: Text)
    requires ProperNumeral(n)
    ensures var s := NumeralText(n, t);
            s != [] && (s[0] == '-' || IsDigit(s[0]))
  {
    if n.whole != [] {
      DigitPlace(n.whole[0]);
    }
  }

  lemma BlankThen(before: Text, c: char, t: Text)
    requires Blank(before) && c > ' '
    ensures Skip(before + ([c] + t)) == [c] + t && ([c] + t)[1..] == t
  {
    SkipBlanks(before, [c] + t);
  }

  // Behind a value in a list or record, blanks and a separator or bracket follow.
  lemma Separated(after: Text, t: Text)
    requires Blank(after) && (t == [] || t[0] == ',' || t[0] == ']' || t[0] == '}')
    ensures EndsNumeral(after + t)
  {
    if after != [] {
      assert (after + t)[0] == after[0];
    } else {
      assert after + t == t;
    }
  }

  // The parser reads the text of d up to what follows it, and gives its meaning.
  lemma {:induction false} DocRead(d: Doc, t: Text)
    requires ProperText(d) && MayFollow(d, t)
    ensures ParseValue(DocText(d, t)) == Ok(Meaning(d), t)
    decreases d, 2
  {
    match d {
      case WordNull => assert ("null" + t)[4..] == t;
      case WordFalse => assert ("false" + t)[5..] == t && ("false" + t)[0] == 'f';
      case WordTrue => assert ("true" + t)[4..] == t && ("true" + t)[0] == 't';
      case Figure(n) =>
        NumeralRead(n, t);
        ValueIsNumber(NumeralText(n, t));
      case Literal(ps, closed) => LiteralRead(ps, closed, t);
      case List(gap, slots) => ListRead(gap, slots, t);
      case Record(gap, entries) => RecordRead(gap, entries, t);
    }
  }

  lemma LiteralRead(ps: seq<Piece>, closed: bool, t: Text)
    requires ProperPieces(ps) && (!closed ==> t == [])
    ensures ParseValue("\"" + PiecesText(ps, if closed then "\"" + t else t)) == Ok(String(PiecesMeaning(ps)), t)
  {
    hide ScanString, ParseValue;
    var q := if closed then "\"" + t else t;
    ScanPieces(ps, q);
    assert ("\"" + PiecesText(ps, q))[1..] == PiecesText(ps, q);
    assert closed ==> q[1..] == t;
    ValueIsString("\"" + PiecesText(ps, q), PiecesMeaning(ps), t);
  }

  lemma ValueIsString(s: Text, v: Text, t: Text)
    requires StartsWith(s, '"') && ScanString(s[1..]) == Ok(v, t)
    ensures ParseValue(s) == Ok(String(v), t)
  {
    hide ScanString;
  }

  lemma ListRead(gap: Text, slots: seq<Slot>, t: Text)
    requires Blank(gap) && ProperSlots(slots)
    ensures ParseValue(DocText(List(gap, slots), t)) == Ok(Array(SlotsMeaning(slots)), t)
    decreases slots, 1
  {
    var s := DocText(List(gap, slots), t);
    if slots == [] {
      BlankThen(gap, ']', t);
      assert s[1..] == gap + ("]" + t);
    } else {
      SlotsRead(slots, t);
      assert s[1..] == SlotsText(slots, "]" + t);
    }
    ValueIsArray(s, SlotsMeaning(slots), t);
  }

  lemma {:induction false} SlotsRead(slots: seq<Slot>, t: Text)
    requires slots != [] && ProperSlots(slots)
    ensures var s := Skip(SlotsText(slots, "]" + t));
            !StartsWith(s, ']') && ParseItems(s) == Ok(SlotsMeaning(slots), t)
    decreases slots, 0
  {
    hide DocText, ParseValue, ParseItems, Meaning;
    var slot, rest := slots[0], slots[1..];
    var u := if rest == [] then "]" + t else "," + SlotsText(rest, "]" + t);
    var s := DocText(slot.doc, slot.after + u);
    DocStart(slot.doc, slot.after + u);
    SkipBlanks(slot.before, s);
    Separated(slot.after, u);
    DocRead(slot.doc, slot.after + u);
    if rest == [] {
      BlankThen(slot.after, ']', t);
    } else {
      BlankThen(slot.after, ',', SlotsText(rest, "]" + t));
      SlotsRead(rest, t);
    }
    ItemsStep(s, Meaning(slot.doc), slot.after + u, SlotsMeaning(rest), t);
  }

  lemma RecordRead(gap: Text, entries: seq<Entry>, t: Text)
    requires Blank(gap) && ProperEntries(entries)
    ensures ParseValue(DocText(Record(gap, entries), t)) == Ok(Object(EntriesMeaning(entries)), t)
    decreases entries, 1
  {
    var s := DocText(Record(gap, entries), t);
    if entries == [] {
      BlankThen(gap, '}', t);
      assert s[1..] == gap + ("}" + t);
    } else {
      EntriesRead(entries, t);
      assert s[1..] == EntriesText(entries, "}" + t);
    }
    ValueIsObject(s, EntriesMeaning(entries), t);
  }

  // One member, from its opening quote on.
  lemma EntryRead(e: Entry, u: Text)
    requires ProperPieces(e.name) && Blank(e.colon) && Blank(e.gap) && ProperDoc(e.doc) && EndsNumeral(u)
    ensures ParseMember("\"" + PiecesText(e.name, "\"" + (e.colon + (":" + (e.gap + DocText(e.doc, u))))))
         == Ok(Member(PiecesMeaning(e.name), Meaning(e.doc)), u)
    decreases e, 3
  {
    hide ScanString, DocText, ParseValue, Meaning;
    var v := DocText(e.doc, u);
    var q := "\"" + (e.colon + (":" + (e.gap + v)));
    ScanPieces(e.name, q);
    assert ("\"" + PiecesText(e.name, q))[1..] == PiecesText(e.name, q);
    assert q[1..] == e.colon + (":" + (e.gap + v));
    BlankThen(e.colon, ':', e.gap + v);
    DocStart(e.doc, u);
    SkipBlanks(e.gap, v);
    DocRead(e.doc, u);
  }

  lemma {:induction false} EntriesRead(entries: seq<Entry>, t: Text)
    requires entries != [] && ProperEntries(entries)
    ensures var s := Skip(EntriesText(entries, "}" + t));
            !StartsWith(s, '}') && ParseMembers(s) == Ok(EntriesMeaning(entries), t)
    decreases entries, 0
  {
    hide DocText, ParseMember, ParseMembers, Meaning, PiecesText, PiecesMeaning;
    var e, rest := entries[0], entries[1..];
    var u := if rest == [] then "}" + t else "," + EntriesText(rest, "}" + t);
    var s := "\"" + PiecesText(e.name, "\"" + (e.colon + (":" + (e.gap + DocText(e.doc, e.after + u)))));
    SkipBlanks(e.before, s);
    Separated(e.after, u);
    EntryRead(e, e.after + u);
    if rest == [] {
      BlankThen(e.after, '}', t);
    } else {
      BlankThen(e.after, ',', EntriesText(rest, "}" + t));
      EntriesRead(rest, t);
    }
    MembersStep(s, Member(PiecesMeaning(e.name), Meaning(e.doc)), e.after + u, EntriesMeaning(rest), t);
  }

  lemma {:induction false} Blanks(s: Text) returns (lead: Text)
    ensures Blank(lead) && s == lead + Skip(s)
  {
    if s == [] || s[0] > ' ' {
      lead := [];
    } else {
      var more := Blanks(s[1..]);
      lead := [s[0]] + more;
      HeadTail(s);
      Assoc([s[0]], more, Skip(s));
    }
  }

  lemma Mark(s: Text, c: char)
    requires StartsWith(s, c)
    ensures s == [c] + s[1..]
  {}

  // Every value that is read is written by the grammar.
  lemma {:induction false} ReadDoc(s: Text) returns (d: Doc)
    requires ParseValue(s).Ok?
    ensures ProperText(d) && Meaning(d) == ParseValue(s).value
    ensures s == DocText(d, ParseValue(s).rest) && (IsOpen(d) ==> ParseValue(s).rest == [])
    decreases |s|, 1
  {
    hide ScanString, ParseNumber, NumeralText, PiecesText, PiecesMeaning, NumeralMeaning, ProperPieces, ProperNumeral;
    if "null" <= s {
      d := WordNull;
    } else if "false" <= s {
      d := WordFalse;
    } else if "true" <= s {
      d := WordTrue;
    } else if s[0] == '"' {
      var ps, closed := ReadPieces(s[1..]);
      d := Literal(ps, closed);
      Mark(s, '"');
    } else if s[0] == '-' || IsDigit(s[0]) {
      var n := ReadNumeral(s);
      d := Figure(n);
    } else if s[0] == '[' {
      Mark(s, '[');
      d := ReadList(s);
    } else {
      Mark(s, '{');
      d := ReadRecord(s);
    }
  }

  lemma ReadList(s: Text) returns (d: Doc)
    requires StartsWith(s, '[') && ParseValue(s).Ok?
    ensures d.List? && ProperDoc(d) && Meaning(d) == ParseValue(s).value && s == DocText(d, ParseValue(s).rest)
    decreases |s|, 0
  {
    var lead := Blanks(s[1..]);
    var t := Skip(s[1..]);
    Mark(s, '[');
    if StartsWith(t, ']') {
      Mark(t, ']');
      d := List(lead, []);
    } else {
      var slots := ReadSlots(t);
      d := List([], Led(lead, slots));
      LedText(lead, slots, "]" + ParseValue(s).rest);
    }
  }

  function Led(lead: Text, slots: seq<Slot>): seq<Slot>
    requires slots != []
  {
    slots[0 := slots[0].(before := lead)]
  }

  lemma LedText(lead: Text, slots: seq<Slot>, t: Text)
    requires Blank(lead) && slots != [] && ProperSlots(slots) && slots[0].before == []
    ensures ProperSlots(Led(lead, slots)) && SlotsMeaning(Led(lead, slots)) == SlotsMeaning(slots)
    ensures SlotsText(Led(lead, slots), t) == lead + SlotsText(slots, t)
  {
    var led := Led(lead, slots);
    assert led[1..] == slots[1..];
  }

  lemma {:induction false} ReadSlots(s: Text) returns (slots: seq<Slot>)
    requires ParseItems(s).Ok?
    ensures slots != [] && ProperSlots(slots) && slots[0].before == [] && SlotsMeaning(slots) == ParseItems(s).value
    ensures s == SlotsText(slots, "]" + ParseItems(s).rest)
    decreases |s|, 2
  {
    hide ParseValue, DocText, Meaning, Skip;
    var d := ReadDoc(s);
    var r := ParseValue(s).rest;
    var after := Blanks(r);
    var t := Skip(r);
    SkipNothing();
    if StartsWith(t, ',') {
      Mark(t, ',');
      var lead := Blanks(t[1..]);
      var more := ReadSlots(Skip(t[1..]));
      LedText(lead, more, "]" + ParseItems(s).rest);
      slots := [Slot([], d, after)] + Led(lead, more);
      assert slots[1..] == Led(lead, more);
    } else {
      Mark(t, ']');
      slots := [Slot([], d, after)];
    }
    assert [] + s == s;
  }

  lemma SkipNothing()
    ensures Skip([]) == []
  {}

  lemma ReadRecord(s: Text) returns (d: Doc)
    requires StartsWith(s, '{') && ParseValue(s).Ok?
    ensures d.Record? && ProperDoc(d) && Meaning(d) == ParseValue(s).value && s == DocText(d, ParseValue(s).rest)
    decreases |s|, 0
  {
    var lead := Blanks(s[1..]);
    var t := Skip(s[1..]);
    Mark(s, '{');
    if StartsWith(t, '}') {
      Mark(t, '}');
      d := Record(lead, []);
    } else {
      var entries := ReadEntries(t);
      d := Record([], Preceded(lead, entries));
      PrecededText(lead, entries, "}" + ParseValue(s).rest);
    }
  }

  function Preceded(lead: Text, entries: seq<Entry>): seq<Entry>
    requires entries != []
  {
    entries[0 := entries[0].(before := lead)]
  }

  lemma PrecededText(lead: Text, entries: seq<Entry>, t: Text)
    requires Blank(lead) && entries != [] && ProperEntries(entries) && entries[0].before == []
    ensures ProperEntries(Preceded(lead, entries))
    ensures EntriesMeaning(Preceded(lead, entries)) == EntriesMeaning(entries)
    ensures EntriesText(Preceded(lead, entries), t) == lead + EntriesText(entries, t)
  {
    hide PiecesText, PiecesMeaning, ProperPieces;
    var led := Preceded(lead, entries);
    assert led[1..] == entries[1..];
  }

  // One member, up to what follows its value.
  lemma ReadEntry(s: Text) returns (e: Entry)
    requires ParseMember(s).Ok?
    ensures ProperPieces(e.name) && Blank(e.colon) && Blank(e.gap) && ProperText(e.doc)
    ensures e.before == [] && e.after == [] && (IsOpen(e.doc) ==> ParseMember(s).rest == [])
    ensures ParseMember(s).value == Member(PiecesMeaning(e.name), Meaning(e.doc))
    ensures s == "\"" + PiecesText(e.name, "\"" + (e.colon + (":" + (e.gap + DocText(e.doc, ParseMember(s).rest)))))
    decreases |s|, 1
  {
    hide ScanString, ParseValue, DocText, Meaning, PiecesText, PiecesMeaning, ProperPieces, Skip;
    Mark(s, '"');
    var name, closed := ReadPieces(s[1..]);
    var r := ScanString(s[1..]).rest;
    var colon := Blanks(r);
    var t := Skip(r);
    SkipNothing();
    Mark(t, ':');
    var gap := Blanks(t[1..]);
    var d := ReadDoc(Skip(t[1..]));
    e := Entry([], name, colon, gap, d, []);
  }

  lemma {:induction false} ReadEntries(s: Text) returns (entries: seq<Entry>)
    requires ParseMembers(s).Ok?
    ensures entries != [] && ProperEntries(entries) && entries[0].before == []
    ensures EntriesMeaning(entries) == ParseMembers(s).value
    ensures s == EntriesText(entries, "}" + ParseMembers(s).rest)
    decreases |s|, 2
  {
    hide ParseMember, DocText, Meaning, PiecesText, PiecesMeaning, ProperPieces, Skip;
    var e := ReadEntry(s);
    var r := ParseMember(s).rest;
    var after := Blanks(r);
    var t := Skip(r);
    SkipNothing();
    if StartsWith(t, ',') {
      Mark(t, ',');
      var lead := Blanks(t[1..]);
      var more := ReadEntries(Skip(t[1..]));
      PrecededText(lead, more, "}" + ParseMembers(s).rest);
      entries := [e.(after := after)] + Preceded(lead, more);
      assert entries[1..] == Preceded(lead, more);
    } else {
      Mark(t, '}');
      entries := [e.(after := after)];
    }
    assert [] + s == s;
  }

  // The whole text s is d, with blanks around it.
  predicate Spells(s: Text, before: Text, d: Doc, after: Text) {
    && Blank(before) && Blank(after) && ProperText(d) && (IsOpen(d) ==> after == [])
    && s == before + DocText(d, after)
  }

  lemma {:induction false} BlankSkip(s: Text)
    ensures Skip(s) == [] <==> Blank(s)
  {
    if s != [] {
      BlankSkip(s[1..]);
      assert Blank(s) <==> s[0] <= ' ' && Blank(s[1..]);
    }
  }

  // The strict parse accepts exactly the texts that the grammar writes, and gives what they mean.
  lemma AcceptedTexts(s: Text, v: Json)
    ensures ParseText(s, true) == Ok(v, [])
       <==> exists before, d, after :: Spells(s, before, d, after) && Meaning(d) == v
  {
    hide ParseValue, DocText, Meaning, ProperDoc;
    if ParseText(s, true) == Ok(v, []) {
      var before := Blanks(s);
      var d := ReadDoc(Skip(s));
      BlankSkip(ParseValue(Skip(s)).rest);
      assert Spells(s, before, d, ParseValue(Skip(s)).rest);
    } else if before, d, after :| Spells(s, before, d, after) && Meaning(d) == v {
      LooseRead(before, d, after);
      BlankSkip(after);
    }
  }

  lemma BlankEndsNumeral(t: Text)
    requires Blank(t)
    ensures EndsNumeral(t)
  {
    Separated(t, []);
    assert t + [] == t;
  }

  // Without the strictness, a document is read up to whatever follows it, and that is left.
  lemma LooseRead(before: Text, d: Doc, t: Text)
    requires Blank(before) && ProperText(d) && (MayFollow(d, t) || (Blank(t) && (IsOpen(d) ==> t == [])))
    ensures ParseText(before + DocText(d, t), false) == Ok(Meaning(d), t)
    ensures ParseText(before + DocText(d, t), true) == if Skip(t) == [] then Ok(Meaning(d), []) else Fail
  {
    hide ParseValue, DocText, Meaning, ProperDoc;
    if Blank(t) {
      BlankEndsNumeral(t);
    }
    DocStart(d, t);
    SkipBlanks(before, DocText(d, t));
    DocRead(d, t);
  }

  // And whatever it accepts is a document and what follows it.
  lemma LooseTexts(s: Text) returns (before: Text, d: Doc)
    requires ParseText(s, false).Ok?
    ensures var p := ParseText(s, false);
            && Blank(before) && ProperText(d) && (IsOpen(d) ==> p.rest == [])
            && s == before + DocText(d, p.rest) && Meaning(d) == p.value
  {
    before := Blanks(s);
    d := ReadDoc(Skip(s));
  }

  // Blanks in front of a text make no difference.
  lemma BlanksBefore(b: Text, s: Text, strict: bool)
    requires Blank(b)
    ensures ParseText(b + s, strict) == ParseText(s, strict)
  {
    var lead := Blanks(s);
    Assoc(b, lead, Skip(s));
    SkipBlanks(b + lead, Skip(s));
  }

  lemma PieceQuoted(p: Piece, t: Text)
    requires ProperPiece(p)
    ensures Quoted(PieceText(p) + t) == Quoted(t)
  {
    match p {
      case Plain(c) => assert ([c] + t)[1..] == t;
      case Short(c) => assert (['\\', c] + t)[2..] == t;
      case Code(q) => QuotedCode(q, t);
      case Pair(high, low) => QuotedPair(high, low, t);
    }
  }

  lemma {:induction false} PiecesQuoted(ps: seq<Piece>, t: Text)
    requires ProperPieces(ps) && (t == [] || t[0] == '"')
    ensures Quoted(PiecesText(ps, t)) <==> t != []
  {
    hide PieceText;
    if ps != [] {
      PiecesQuoted(ps[1..], t);
      PieceQuoted(ps[0], PiecesText(ps[1..], t));
    }
  }

  lemma QuotedPair(high: Quad, low: Quad, t: Text)
    requires ProperQuad(high) && ProperQuad(low)
    ensures Quoted("\\u" + QuadText(high) + "\\u" + QuadText(low) + t) == Quoted(t)
  {
    hide QuadText, ProperQuad, Quoted;
    var h, l := "\\u" + QuadText(high), "\\u" + QuadText(low);
    QuotedCode(low, t);
    QuotedCode(high, l + t);
    Assoc(h, "\\u", QuadText(low));
    Assoc(h, l, t);
  }

  lemma QuotedCode(q: Quad, t: Text)
    requires ProperQuad(q)
    ensures Quoted("\\u" + QuadText(q) + t) == Quoted(t)
  {
    var s := "\\u" + QuadText(q) + t;
    assert s[2..] == QuadText(q) + t && s[6..] == t;
    UnitOf(q, t);
    QuotedUnit(s);
  }

  lemma {:induction false} PiecesMore(ps: seq<Piece>, t: Text, b: Text)
    requires ProperPieces(ps)
    ensures PiecesText(ps, t) + b == PiecesText(ps, t + b)
  {
    if ps != [] {
      PiecesMore(ps[1..], t, b);
      Assoc(PieceText(ps[0]), PiecesText(ps[1..], t), b);
    }
  }

  lemma {:induction false} DigitsMore(ds: seq<nat>, t: Text, b: Text)
    requires Decimals(ds)
    ensures DigitsText(ds, t) + b == DigitsText(ds, t + b)
  {
    if ds != [] {
      DigitsMore(ds[1..], t, b);
      Assoc([DIGITS[ds[0]]], DigitsText(ds[1..], t), b);
    }
  }

  lemma NumeralMore(n: Numeral, t: Text, b: Text)
    requires ProperNumeral(n)
    ensures NumeralText(n, t) + b == NumeralText(n, t + b)
  {
    var e := ExponentText(n.exponent, t);
    var f := FractionText(n.fraction, e);
    var minus, zero := if n.minus then "-" else "", if n.zero then "0" else "";
    if n.exponent.Exponent? {
      var c := [if n.exponent.capital then 'E' else 'e'];
      DigitsMore(n.exponent.digits, t, b);
      Assoc4(c, SignText(n.exponent.sign), DigitsText(n.exponent.digits, t), b);
      Assoc(c, SignText(n.exponent.sign) + DigitsText(n.exponent.digits, t), b);
    }
    DigitsMore(n.fraction, e, b);
    Assoc(".", DigitsText(n.fraction, e), b);
    DigitsMore(n.whole, f, b);
    Assoc(zero, DigitsText(n.whole, f), b);
    Assoc(minus, zero + DigitsText(n.whole, f), b);
  }

  // The text of d is the same whatever follows.
  lemma {:induction false} DocMore(d: Doc, t: Text, b: Text)
    requires ProperText(d)
    ensures DocText(d, t) + b == DocText(d, t + b)
    decreases d, 1
  {
    match d {
      case Figure(n) => NumeralMore(n, t, b);
      case Literal(ps, closed) =>
        PiecesMore(ps, if closed then "\"" + t else t, b);
        Assoc("\"", t, b);
        Assoc("\"", PiecesText(ps, if closed then "\"" + t else t), b);
      case List(gap, slots) =>
        Assoc("]", t, b);
        if slots == [] {
          Assoc(gap, "]" + t, b);
          Assoc("[", gap + ("]" + t), b);
        } else {
          SlotsMore(slots, "]" + t, b);
          Assoc("[", SlotsText(slots, "]" + t), b);
        }
      case Record(gap, entries) =>
        Assoc("}", t, b);
        if entries == [] {
          Assoc(gap, "}" + t, b);
          Assoc("{", gap + ("}" + t), b);
        } else {
          EntriesMore(entries, "}" + t, b);
          Assoc("{", EntriesText(entries, "}" + t), b);
        }
      case _ =>
    }
  }

  lemma {:induction false} SlotsMore(slots: seq<Slot>, t: Text, b: Text)
    requires slots != [] && ProperSlots(slots)
    ensures SlotsText(slots, t) + b == SlotsText(slots, t + b)
    decreases slots, 0
  {
    var slot := slots[0];
    var u := if |slots| == 1 then t else "," + SlotsText(slots[1..], t);
    if |slots| > 1 {
      SlotsMore(slots[1..], t, b);
      Assoc(",", SlotsText(slots[1..], t), b);
    }
    Assoc(slot.after, u, b);
    DocMore(slot.doc, slot.after + u, b);
    Assoc(slot.before, DocText(slot.doc, slot.after + u), b);
  }

  lemma {:induction false} EntriesMore(entries: seq<Entry>, t: Text, b: Text)
    requires entries != [] && ProperEntries(entries)
    ensures EntriesText(entries, t) + b == EntriesText(entries, t + b)
    decreases entries, 0
  {
    hide PiecesText, DocText;
    var e := entries[0];
    var u := if |entries| == 1 then t else "," + EntriesText(entries[1..], t);
    if |entries| > 1 {
      EntriesMore(entries[1..], t, b);
      Assoc(",", EntriesText(entries[1..], t), b);
    }
    var v := DocText(e.doc, e.after + u);
    var q := "\"" + (e.colon + (":" + (e.gap + v)));
    Assoc(e.after, u, b);
    DocMore(e.doc, e.after + u, b);
    Assoc(e.gap, v, b);
    Assoc(":", e.gap + v, b);
    Assoc(e.colon, ":" + (e.gap + v), b);
    Assoc("\"", e.colon + (":" + (e.gap + v)), b);
    PiecesMore(e.name, q, b);
    Assoc("\"", PiecesText(e.name, q), b);
    Assoc(e.before, "\"" + PiecesText(e.name, q), b);
  }

  lemma {:induction false} ScanBlank(b: Text)
    requires Blank(b)
    ensures ScanString(b) == Ok(b, [])
  {
    if b != [] {
      ScanBlank(b[1..]);
      HeadTail(b);
    }
  }

  lemma {:induction false} ScanOpen(ps: seq<Piece>, b: Text)
    requires ProperPieces(ps) && Blank(b)
    ensures ScanString(PiecesText(ps, b)) == Ok(PiecesMeaning(ps) + b, [])
  {
    hide ScanString, PieceText, PieceMeaning;
    if ps == [] {
      ScanBlank(b);
      assert [] + b == b;
    } else {
      ScanOpen(ps[1..], b);
      if |ps| > 1 {
        NextPiece(ps[1], PiecesText(ps[1..][1..], b));
      }
      ScanPiece(ps[0], PiecesText(ps[1..], b));
      Assoc(PieceMeaning(ps[0]), PiecesMeaning(ps[1..]), b);
    }
  }

  // Blanks behind an open literal become part of it.
  lemma OpenGrows(before: Text, ps: seq<Piece>, b: Text)
    requires Blank(before) && ProperPieces(ps) && Blank(b)
    ensures ParseText(before + ("\"" + PiecesText(ps, b)), true) == Ok(String(PiecesMeaning(ps) + b), [])
  {
    hide ScanString;
    var s := "\"" + PiecesText(ps, b);
    SkipBlanks(before, s);
    ScanOpen(ps, b);
    assert s[1..] == PiecesText(ps, b);
  }

  lemma ClosedIsQuoted(d: Doc, after: Text)
    requires ProperText(d) && (IsOpen(d) ==> after == [])
    ensures (Meaning(d).String? ==> Quoted(DocText(d, after)[1..])) <==> !IsOpen(d)
  {
    if d.Literal? {
      var q := if d.closed then "\"" + after else after;
      PiecesQuoted(d.pieces, q);
      assert DocText(d, after)[1..] == PiecesText(d.pieces, q);
    }
  }

  // Behind an accepted value blanks stay accepted, unless they join a literal without its closing quote.
  lemma BlanksBehind(s: Text, v: Json, b: Text)
    requires ParseText(s, true) == Ok(v, []) && Blank(b) && b != []
    ensures ParseText(s + b, true) == Ok(v, []) <==> (v.String? ==> Quoted(Skip(s)[1..]))
  {
    hide ParseValue, DocText, Meaning, ProperDoc, Quoted, Skip;
    AcceptedTexts(s, v);
    var before, d, after :| Spells(s, before, d, after) && Meaning(d) == v;
    DocStart(d, after);
    SkipBlanks(before, DocText(d, after));
    ClosedIsQuoted(d, after);
    DocMore(d, after, b);
    Assoc(before, DocText(d, after), b);
    if IsOpen(d) {
      OpenStays(before, d, b);
      assert [] + b == b;
    } else {
      LooseRead(before, d, after + b);
      BlankSkip(after + b);
    }
  }

  lemma OpenStays(before: Text, d: Doc, b: Text)
    requires Blank(before) && IsOpen(d) && ProperText(d) && Blank(b) && b != []
    ensures ParseText(before + DocText(d, b), true) != Ok(Meaning(d), [])
  {
    OpenGrows(before, d.pieces, b);
    assert |PiecesMeaning(d.pieces) + b| > |PiecesMeaning(d.pieces)|;
  }

  // A \\u cut short by a quote, a backslash or the end of the text, or a backslash at the end of the text.
  predicate BadAt(s: Text) {
    || s == "\\"
    || (StartsCode(s) && (|s| < 6 || exists i | 2 <= i < 6 :: s[i] == '"' || s[i] == '\\'))
  }

  predicate HasBadEscape(s: Text) {
    exists i | 0 <= i < |s| :: BadAt(s[i..])
  }

  lemma BadBehind(a: Text, s: Text)
    requires HasBadEscape(s)
    ensures HasBadEscape(a + s)
  {
    var i :| 0 <= i < |s| && BadAt(s[i..]);
    assert (a + s)[|a| + i..] == s[i..];
  }

  lemma BadFrom(s: Text, k: nat)
    requires k <= |s| && HasBadEscape(s[k..])
    ensures HasBadEscape(s)
  {
    BadBehind(s[..k], s[k..]);
    assert s[..k] + s[k..] == s;
  }

  lemma BadHere(s: Text, k: nat)
    requires k < |s| && BadAt(s[k..])
    ensures HasBadEscape(s)
  {}

  lemma {:induction false} BadInLiteral(s: Text)
    requires ScanString(s).BadEscape?
    ensures HasBadEscape(s)
    decreases |s|
  {
    if s[0] != '\\' {
      BadInLiteral(s[1..]);
      BadFrom(s, 1);
    } else if |s| == 1 || (s[1] == 'u' && !StartsUnit(s[2..])) {
      assert s[0..] == s;
      BadHere(s, 0);
    } else if s[1] != 'u' {
      BadInLiteral(s[2..]);
      BadFrom(s, 2);
    } else if EscapeLength(s) == 12 && !StartsUnit(s[8..]) {
      assert s[6..][2..] == s[8..];
      BadHere(s, 6);
    } else {
      ScanEscape(s);
      BadInLiteral(s[EscapeLength(s)..]);
      BadFrom(s, EscapeLength(s));
    }
  }

  lemma BadSkipped(s: Text)
    requires HasBadEscape(Skip(s))
    ensures HasBadEscape(s)
  {
    var lead := Blanks(s);
    BadBehind(lead, Skip(s));
  }

  lemma {:induction false} BadInValue(s: Text)
    requires ParseValue(s).BadEscape?
    ensures HasBadEscape(s)
    decreases |s|, 1
  {
    hide HasBadEscape, ScanString;
    if s[0] == '"' {
      BadInLiteral(s[1..]);
    } else {
      if s[0] == '[' {
        BadInItems(Skip(s[1..]));
      } else {
        BadInMembers(Skip(s[1..]));
      }
      BadSkipped(s[1..]);
    }
    BadFrom(s, 1);
  }

  // A value that is read leaves what follows it.
  lemma ValueLeaves(s: Text) returns (a: Text)
    requires ParseValue(s).Ok?
    ensures s == a + ParseValue(s).rest
  {
    var d := ReadDoc(s);
    a := DocText(d, []);
    DocMore(d, [], ParseValue(s).rest);
    assert [] + ParseValue(s).rest == ParseValue(s).rest;
  }

  lemma MemberLeaves(s: Text) returns (a: Text)
    requires ParseMember(s).Ok?
    ensures s == a + ParseMember(s).rest
  {
    hide PiecesText, DocText, ProperPieces;
    var e := ReadEntry(s);
    var r := ParseMember(s).rest;
    var v := DocText(e.doc, []);
    var q := "\"" + (e.colon + (":" + (e.gap + v)));
    DocMore(e.doc, [], r);
    assert [] + r == r;
    Assoc(e.gap, v, r);
    Assoc(":", e.gap + v, r);
    Assoc(e.colon, ":" + (e.gap + v), r);
    Assoc("\"", e.colon + (":" + (e.gap + v)), r);
    PiecesMore(e.name, q, r);
    Assoc("\"", PiecesText(e.name, q), r);
    a := "\"" + PiecesText(e.name, q);
  }

  // Behind a value and a separator.
  lemma BadNext(a: Text, r: Text)
    requires Skip(r) != [] && HasBadEscape(Skip(Skip(r)[1..]))
    ensures HasBadEscape(a + r)
  {
    hide HasBadEscape;
    var t := Skip(r);
    BadSkipped(t[1..]);
    BadFrom(t, 1);
    BadSkipped(r);
    BadBehind(a, r);
  }

  lemma {:induction false} BadInItems(s: Text)
    requires ParseItems(s).BadEscape?
    ensures HasBadEscape(s)
    decreases |s|, 2
  {
    hide HasBadEscape;
    if ParseValue(s).BadEscape? {
      BadInValue(s);
    } else {
      var a := ValueLeaves(s);
      var r := ParseValue(s).rest;
      BadInItems(Skip(Skip(r)[1..]));
      BadNext(a, r);
    }
  }

  lemma BadInMember(s: Text)
    requires ParseMember(s).BadEscape?
    ensures HasBadEscape(s)
    decreases |s|, 1
  {
    hide HasBadEscape, ScanString, PiecesText;
    if ScanString(s[1..]).BadEscape? {
      BadInLiteral(s[1..]);
    } else {
      var r := ScanString(s[1..]).rest;
      var name, closed := ReadPieces(s[1..]);
      SkipNothing();
      BadInValue(Skip(Skip(r)[1..]));
      BadNext("\"", r);
      PiecesMore(name, [], "\"" + r);
      assert [] + ("\"" + r) == "\"" + r;
      BadBehind(PiecesText(name, []), "\"" + r);
    }
    BadFrom(s, 1);
  }

  lemma {:induction false} BadInMembers(s: Text)
    requires ParseMembers(s).BadEscape?
    ensures HasBadEscape(s)
    decreases |s|, 2
  {
    hide HasBadEscape;
    if ParseMember(s).BadEscape? {
      BadInMember(s);
    } else {
      var a := MemberLeaves(s);
      var r := ParseMember(s).rest;
      BadInMembers(Skip(Skip(r)[1..]));
      BadNext(a, r);
    }
  }

  // So the only texts without a result are among those with such an escape; all others that the grammar does not
  // write are rejected.
  lemma OnlyBadEscapes(s: Text, strict: bool)
    requires ParseText(s, strict).BadEscape?
    ensures HasBadEscape(s)
  {
    BadInValue(Skip(s));
    BadSkipped(s);
  }
}
