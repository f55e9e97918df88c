/** What both printers rely on: printed texts are C strings, and how they are put together from left to right. */
module JsonPrinted {
  import opened CText
  import opened JsonTree

  lemma {:induction false} EscapeNulFree(s: Text)
    requires NulFree(s)
    ensures NulFree(Escape(s))
  {
    if s != [] {
      EscapeNulFree(s[1..]);
      assert NulFree(EscapeChar(s[0]));
    }
  }

  lemma NulFreeJoin(a: Text, b: Text)
    ensures NulFree(a + b) == (NulFree(a) && NulFree(b))
  {
    assert NulFree(a + b) ==> NulFree((a + b)[..|a|]) && NulFree((a + b)[|a|..]);
    assert (a + b)[..|a|] == a && (a + b)[|a|..] == b;
  }

  lemma {:induction false} PrintNulFree(v: Json, depth: nat, fmt: bool)
    requires Printable(v)
    ensures NulFree(Print(v, depth, fmt))
    decreases v, 1
  {
    match v {
      case String(s) => EscapeNulFree(s);
      case Array(items) => ItemsNulFree(items, depth + 1, fmt);
      case Object(members) =>
        MembersNulFree(members, depth + 1, fmt);
        ObjectNulFree(if fmt then "\n" else "", PrintMembers(members, depth + 1, fmt), if fmt then Tabs(depth) else "");
        ObjectNulFree(if fmt then "\n" + Tabs(depth - 1) else "", "", "");
      case _ =>
    }
  }

  lemma {:induction false} ItemsNulFree(items: seq<Json>, depth: nat, fmt: bool)
    requires PrintableItems(items)
    ensures NulFree(PrintItems(items, depth, fmt))
    decreases items, 0
  {
    if items != [] {
      PrintNulFree(items[0], depth, fmt);
      ItemsNulFree(items[1..], depth, fmt);
    }
  }

  lemma {:induction false} MembersNulFree(members: seq<Member>, depth: nat, fmt: bool)
    requires PrintableMembers(members)
    ensures NulFree(PrintMembers(members, depth, fmt))
    decreases members, 0
  {
    if members != [] {
      PrintNulFree(members[0].value, depth, fmt);
      MembersNulFree(members[1..], depth, fmt);
      StartNulFree(members[0].name, depth, fmt);
      NulFreeJoin(MemberStart(members[0].name, depth, fmt), Print(members[0].value, depth, fmt));
      NulFreeJoin(MemberStart(members[0].name, depth, fmt) + Print(members[0].value, depth, fmt),
                  MemberEnd(|members| > 1, fmt));
      NulFreeJoin(MemberStart(members[0].name, depth, fmt) + Print(members[0].value, depth, fmt)
                  + MemberEnd(|members| > 1, fmt), PrintMembers(members[1..], depth, fmt));
    }
  }

  lemma ObjectNulFree(a: Text, b: Text, c: Text)
    requires NulFree(a) && NulFree(b) && NulFree(c)
    ensures NulFree("{" + a + b + c + "}") && NulFree("{" + a + "}")
  {}

  lemma StartNulFree(name: Text, depth: nat, fmt: bool)
    requires NulFree(name)
    ensures NulFree(MemberStart(name, depth, fmt))
  {
    EscapeNulFree(name);
    NulFreeJoin(if fmt then Tabs(depth) else "", PrintString(name));
  }

  lemma {:induction false} DigitsLength(n: nat, k: nat, bound: nat)
    requires k >= 1 && n < bound && bound == Power10(k)
    ensures |Digits(n)| <= k
    decreases k
  {
    if n >= 10 {
      DigitsLength(n / 10, k - 1, Power10(k - 1));
    }
  }

  function Power10(k: nat): nat {
    if k == 0 then 1 else 10 * Power10(k - 1)
  }

  // An int takes at most eleven characters.
  lemma DecimalLength(m: int)
    requires IsInt32(m)
    ensures |Decimal(m)| <= 11
  {
    assert Power10(10) == 10_000_000_000;
    DigitsLength(if m < 0 then -m else m, 10, 10_000_000_000);
  }

  // done is what precedes the items from number k on.
  lemma ItemsStep(done: Text, items: seq<Json>, k: nat, depth: nat, fmt: bool)
    requires PrintableItems(items) && k < |items|
    ensures var value, sep := Print(items[k], depth, fmt), ItemEnd(k + 1 < |items|, fmt);
            done + value + sep + PrintItems(items[k + 1..], depth, fmt) == done + PrintItems(items[k..], depth, fmt)
  {
    var value, sep := Print(items[k], depth, fmt), ItemEnd(k + 1 < |items|, fmt);
    assert items[k..][1..] == items[k + 1..];
    Assoc(done, value, sep);
    Assoc(done, value + sep, PrintItems(items[k + 1..], depth, fmt));
  }

  lemma MembersStep(done: Text, members: seq<Member>, k: nat, depth: nat, fmt: bool)
    requires PrintableMembers(members) && k < |members|
    ensures var m := members[k];
            (done + MemberStart(m.name, depth, fmt) + Print(m.value, depth, fmt) + MemberEnd(k + 1 < |members|, fmt)
             + PrintMembers(members[k + 1..], depth, fmt)
             == done + PrintMembers(members[k..], depth, fmt))
  {
    var m := members[k];
    assert members[k..][1..] == members[k + 1..];
    Join5(done, MemberStart(m.name, depth, fmt), Print(m.value, depth, fmt), MemberEnd(k + 1 < |members|, fmt),
          PrintMembers(members[k + 1..], depth, fmt));
  }

  lemma Join5(a: Text, b: Text, c: Text, d: Text, e: Text)
    ensures a + b + c + d + e == a + (b + c + d + e)
  {}

  lemma ObjectText(members: seq<Member>, depth: nat, fmt: bool)
    requires PrintableMembers(members) && members != []
    ensures var open, closing := if fmt then "{\n" else "{", if fmt then Tabs(depth) else "";
            Print(Object(members), depth, fmt) == open + PrintMembers(members, depth + 1, fmt) + (closing + "}")
  {
    var open, closing := "{" + (if fmt then "\n" else ""), if fmt then Tabs(depth) else "";
    assert open == if fmt then "{\n" else "{";
    Assoc(open + PrintMembers(members, depth + 1, fmt), closing, "}");
  }

  lemma EmptyArrayText(depth: nat, fmt: bool)
    ensures Print(Array([]), depth, fmt) == "[]"
  {}

  lemma EmptyRight(t: Text)
    ensures t + [] == t
  {}
}
