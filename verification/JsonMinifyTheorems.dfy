/** Minifying formatted output gives the unformatted output, and minifying any accepted text keeps its value. */
module JsonMinifyTheorems {
  import opened CText
  import opened JsonTree
  import opened JsonParse
  import opened JsonMinify

  // Any print, in front of any closed text, minifies to the unformatted print.
  lemma {:induction false} MinifyPrinted(v: Json, depth: nat, fmt: bool, t: Text)
    requires Printable(v) && Closed(t)
    ensures Closed(Print(v, depth, fmt) + t)
    ensures Minify(Print(v, depth, fmt) + t) == Print(v, depth, false) + Minify(t)
    decreases v, 1
  {
    match v
    case Null => MinifyPlain("null", t);
    case False => MinifyPlain("false", t);
    case True => MinifyPlain("true", t);
    case Number(m, _) => MinifyPlain(Decimal(m), t);
    case String(s) => MinifyPrintedString(s, t);
    case Array(items) =>
      var close := "]" + t;
      MinifyPlain("]", t);
      MinifyPrintedItems(items, depth + 1, fmt, close);
      MinifyPlain("[", PrintItems(items, depth + 1, fmt) + close);
      Assoc4("[", PrintItems(items, depth + 1, fmt), "]", t);
      Assoc4("[", PrintItems(items, depth + 1, false), "]", Minify(t));
    case Object(members) =>
      if members == [] {
        MinifyPrintedNoMembers(depth, fmt, t);
      } else {
        MinifyPrintedObject(members, depth, fmt, t);
      }
  }

  lemma MinifyPrintedNoMembers(depth: nat, fmt: bool, t: Text)
    requires Closed(t)
    ensures Closed(Print(Object([]), depth, fmt) + t)
    ensures Minify(Print(Object([]), depth, fmt) + t) == Print(Object([]), depth, false) + Minify(t)
  {
    var blanks := if fmt then "\n" + Tabs(depth - 1) else "";
    MinifyPlain("}", t);
    MinifyLayout(blanks, "}" + t);
    MinifyPlain("{", blanks + ("}" + t));
    Assoc4("{", blanks, "}", t);
    Assoc4("{", "", "}", Minify(t));
    assert "" + ("}" + Minify(t)) == "}" + Minify(t);
  }

  lemma {:induction false} MinifyPrintedItems(items: seq<Json>, depth: nat, fmt: bool, t: Text)
    requires PrintableItems(items) && Closed(t)
    ensures Closed(PrintItems(items, depth, fmt) + t)
    ensures Minify(PrintItems(items, depth, fmt) + t) == PrintItems(items, depth, false) + Minify(t)
    decreases items, 0
  {
    if items == [] {
      assert [] + t == t && [] + Minify(t) == Minify(t);
    } else {
      var more := |items| > 1;
      var rest := PrintItems(items[1..], depth, fmt) + t;
      var min := PrintItems(items[1..], depth, false) + Minify(t);
      MinifyPrintedItems(items[1..], depth, fmt, t);
      MinifyItemEnd(more, fmt, rest);
      MinifyPrinted(items[0], depth, fmt, ItemEnd(more, fmt) + rest);
      Assoc4(Print(items[0], depth, fmt), ItemEnd(more, fmt), PrintItems(items[1..], depth, fmt), t);
      Assoc4(Print(items[0], depth, false), ItemEnd(more, false), PrintItems(items[1..], depth, false), Minify(t));
    }
  }

  lemma MinifyItemEnd(more: bool, fmt: bool, t: Text)
    requires Closed(t)
    ensures Closed(ItemEnd(more, fmt) + t) && Minify(ItemEnd(more, fmt) + t) == ItemEnd(more, false) + Minify(t)
  {
    if more && fmt {
      MinifyLayout(" ", t);
      MinifyPlain(",", " " + t);
      assert ItemEnd(more, fmt) + t == "," + (" " + t);
    } else {
      MinifyPlain(ItemEnd(more, fmt), t);
    }
  }

  lemma MinifyPrintedObject(members: seq<Member>, depth: nat, fmt: bool, t: Text)
    requires PrintableMembers(members) && members != [] && Closed(t)
    ensures Closed(Print(Object(members), depth, fmt) + t)
    ensures Minify(Print(Object(members), depth, fmt) + t) == Print(Object(members), depth, false) + Minify(t)
    decreases members, 1
  {
    hide PrintMembers, Minify, Closed;
    var nl := if fmt then "\n" else "";
    var tabs := if fmt then Tabs(depth) else "";
    var body := PrintMembers(members, depth + 1, fmt);
    MinifyPlain("}", t);
    MinifyLayout(tabs, "}" + t);
    MinifyPrintedMembers(members, depth + 1, fmt, tabs + ("}" + t));
    MinifyLayout(nl, body + (tabs + ("}" + t)));
    MinifyPlain("{", nl + (body + (tabs + ("}" + t))));
    Nested("{", nl, body, tabs, "}", t);
    Unlaid("{", PrintMembers(members, depth + 1, false), "}", Minify(t));
  }

  lemma Nested(a: Text, b: Text, c: Text, d: Text, e: Text, t: Text)
    ensures a + b + c + d + e + t == a + (b + (c + (d + (e + t))))
  {}

  lemma Unlaid(a: Text, b: Text, c: Text, t: Text)
    ensures a + "" + b + "" + c + t == a + (b + (c + t))
  {}

  lemma {:induction false} MinifyPrintedMembers(members: seq<Member>, depth: nat, fmt: bool, t: Text)
    requires PrintableMembers(members) && Closed(t)
    ensures Closed(PrintMembers(members, depth, fmt) + t)
    ensures Minify(PrintMembers(members, depth, fmt) + t) == PrintMembers(members, depth, false) + Minify(t)
    decreases members, 0
  {
    if members == [] {
      assert [] + t == t && [] + Minify(t) == Minify(t);
    } else {
      var m := members[0];
      var more := |members| > 1;
      var rest := PrintMembers(members[1..], depth, fmt) + t;
      MinifyPrintedMembers(members[1..], depth, fmt, t);
      MinifyMemberEnd(more, fmt, rest);
      MinifyPrinted(m.value, depth, fmt, MemberEnd(more, fmt) + rest);
      MinifyMemberStart(m.name, depth, fmt, Print(m.value, depth, fmt) + (MemberEnd(more, fmt) + rest));
      Assoc5(MemberStart(m.name, depth, fmt), Print(m.value, depth, fmt), MemberEnd(more, fmt),
             PrintMembers(members[1..], depth, fmt), t);
      Assoc5(MemberStart(m.name, depth, false), Print(m.value, depth, false), MemberEnd(more, false),
             PrintMembers(members[1..], depth, false), Minify(t));
    }
  }

  lemma MinifyMemberEnd(more: bool, fmt: bool, t: Text)
    requires Closed(t)
    ensures Closed(MemberEnd(more, fmt) + t)
    ensures Minify(MemberEnd(more, fmt) + t) == MemberEnd(more, false) + Minify(t)
  {
    var nl := if fmt then "\n" else "";
    MinifyLayout(nl, t);
    if more {
      MinifyPlain(",", nl + t);
      Assoc(",", nl, t);
      assert "," + "" == ",";
    } else {
      assert "" + nl == nl && "" + Minify(t) == Minify(t);
    }
  }

  lemma MinifyMemberStart(name: Text, depth: nat, fmt: bool, t: Text)
    requires Closed(t)
    ensures Closed(MemberStart(name, depth, fmt) + t)
    ensures Minify(MemberStart(name, depth, fmt) + t) == MemberStart(name, depth, false) + Minify(t)
  {
    var tabs := if fmt then Tabs(depth) else "";
    var tab := if fmt then "\t" else "";
    MinifyLayout(tab, t);
    MinifyPlain(":", tab + t);
    MinifyPrintedString(name, ":" + (tab + t));
    MinifyLayout(tabs, PrintString(name) + (":" + (tab + t)));
    assert (if fmt then ":\t" else ":") == ":" + tab;
    Assoc4(tabs, PrintString(name), ":" + tab, t);
    Assoc(":", tab, t);
    Assoc4("", PrintString(name), ":", Minify(t));
    assert "" + (PrintString(name) + (":" + Minify(t))) == PrintString(name) + (":" + Minify(t));
  }

  // The minified formatted print is the unformatted print.
  lemma MinifyFormatted(v: Json, fmt: bool)
    requires Printable(v)
    ensures Closed(Print(v, 0, fmt)) && Minify(Print(v, 0, fmt)) == Print(v, 0, false)
  {
    MinifyPrinted(v, 0, fmt, []);
    assert Print(v, 0, fmt) + [] == Print(v, 0, fmt);
    assert Print(v, 0, false) + Minify([]) == Print(v, 0, false);
  }
}
