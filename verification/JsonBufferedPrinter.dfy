/** cJSON_PrintBuffered: the printers that write into one growing buffer. */
module JsonBufferedPrinter {
  import opened CText
  import opened JsonTree
  import opened JsonBuffer
  import opened JsonHeap
  import opened JsonPrinted
  import opened JsonStringPrinter
  import opened JsonWalk

  // Text t and its terminator stand behind head; the offset is somewhere between them.
  ghost predicate Printed(p: PrintBuffer, head: Text, t: Text)
    reads p, p.buffer
  {
    && p.Valid() && |head| <= p.offset <= |head| + |t| < p.length
    && p.buffer[..|head| + |t|] == head + t && p.buffer[|head| + |t|] == '\0'
  }

  // p->offset=update(p)
  method StepOver(p: PrintBuffer, ghost head: Text, ghost t: Text)
    requires Printed(p, head, t) && NulFree(t)
    modifies p
    ensures p.Valid() && p.buffer == old(p.buffer) && p.Done() == head + t
  {
    ghost var rest := t[p.offset - |head|..];
    assert p.buffer[p.offset..p.offset + |rest|] == (head + t)[p.offset..];
    assert (head + t)[p.offset..] == rest;
    p.StepOver(rest);
    assert p.Done() == p.buffer[..|head| + |t|];
  }

  lemma PrintedWhole(p: PrintBuffer, head: Text, a: Text, t: Text)
    requires Printed(p, head + a, t)
    ensures Printed(p, head, a + t)
  {
    Assoc(head, a, t);
  }

  lemma PlacedIsPrinted(p: PrintBuffer, t: Text)
    requires p.Valid() && p.Holds(t)
    ensures Printed(p, p.Done(), t)
  {
    assert p.buffer[..p.offset + |t|] == p.buffer[..p.offset] + p.buffer[p.offset..p.offset + |t|];
  }

  // Places t at the offset, with the room the printer asks for.
  method Place(p: PrintBuffer, t: Text, needed: nat)
    requires p.Valid() && |t| < needed && p.offset + needed <= MAX_SIZE
    modifies p, p.buffer
    ensures p.buffer == old(p.buffer) || fresh(p.buffer)
    ensures p.offset == old(p.offset) && Printed(p, old(p.Done()), t)
  {
    p.Place(t, needed);
    PlacedIsPrinted(p, t);
  }

  method PrintStringPtr(p: PrintBuffer, str: Text)
    requires p.Valid() && NulFree(str) && p.offset + |PrintString(str)| + 1 <= MAX_SIZE
    modifies p, p.buffer
    ensures p.buffer == old(p.buffer) || fresh(p.buffer)
    ensures p.offset == old(p.offset) && Printed(p, old(p.Done()), PrintString(str))
  {
    ghost var head := p.Done();
    var flag, needed := MeasureString(str);
    p.Ensure(needed);
    assert p.Done() == head;
    WriteString(p.buffer, p.offset, str, flag);
    assert p.Done() == head;
    PlacedIsPrinted(p, PrintString(str));
  }

  method PrintNumber(p: PrintBuffer, m: int)
    requires p.Valid() && IsInt32(m) && p.offset + 21 <= MAX_SIZE
    modifies p, p.buffer
    ensures p.buffer == old(p.buffer) || fresh(p.buffer)
    ensures p.offset == old(p.offset) && Printed(p, old(p.Done()), Decimal(m))
  {
    if m == 0 {
      Place(p, "0", 2);
    } else {
      DecimalLength(m);
      Place(p, Decimal(m), 21);
    }
  }

  // The position print_value returns: for a formatted object the loop over tabs has overwritten the start.
  function Returned(v: Json, depth: nat, fmt: bool, start: nat): nat {
    if fmt && v.Object? && v.members != [] then depth else start
  }

  // item and the nodes below it stand for v.
  method PrintValue(p: PrintBuffer, item: Node, depth: nat, fmt: bool, ghost v: Json, ghost t: Forest)
    returns (out: nat)
    requires p.Valid() && Printable(v) && p.offset + |Print(v, depth, fmt)| + 21 <= MAX_SIZE
    requires Spans(t) && Shows(item, v, t)
    modifies p, p.buffer
    ensures p.buffer == old(p.buffer) || fresh(p.buffer)
    ensures Printed(p, old(p.Done()), Print(v, depth, fmt))
    ensures out == Returned(v, depth, fmt, old(p.offset))
    decreases v, 1
  {
    hide Spans;
    out := p.offset;
    match item.data.kind
    case KindNull => Place(p, "null", 5);
    case KindFalse => Place(p, "false", 6);
    case KindTrue => Place(p, "true", 5);
    case KindNumber => PrintNumber(p, item.data.mantissa);
    case KindString => PrintStringPtr(p, item.data.valuestring.text);
    case KindArray => out := PrintArray(p, item, depth, fmt, v.items, t);
    case KindObject => out := PrintObject(p, item, depth, fmt, v.members, t);
  }

  method PrintArray(p: PrintBuffer, item: Node, depth: nat, fmt: bool, ghost items: seq<Json>, ghost t: Forest)
    returns (out: nat)
    requires p.Valid() && PrintableItems(items) && p.offset + |Print(Array(items), depth, fmt)| + 21 <= MAX_SIZE
    requires Spans(t) && Shows(item, Array(items), t)
    modifies p, p.buffer
    ensures p.buffer == old(p.buffer) || fresh(p.buffer)
    ensures Printed(p, old(p.Done()), Print(Array(items), depth, fmt))
    ensures out == old(p.offset)
    decreases items, 2
  {
    hide Spans, Shows;
    out := p.offset;
    ShownLength(item, items, t);
    var numentries := CountChildren(item, t);
    if numentries == 0 {
      Place(p, "[]", 3);
      return;
    }
    ghost var head, all := p.Done(), PrintItems(items, depth + 1, fmt);
    p.Append("[", false);
    PrintAllItems(p, item, depth + 1, fmt, items, t);
    Place(p, "]", 2);
    Assoc(head, "[", all);
    PrintedWhole(p, head, "[" + all, "]");
  }

  method PrintAllItems(p: PrintBuffer, item: Node, depth: nat, fmt: bool, ghost items: seq<Json>, ghost t: Forest)
    requires p.Valid() && PrintableItems(items) && p.offset + |PrintItems(items, depth, fmt)| + 21 <= MAX_SIZE
    requires Spans(t) && Shows(item, Array(items), t)
    modifies p, p.buffer
    ensures p.Valid() && (p.buffer == old(p.buffer) || fresh(p.buffer))
    ensures p.Done() == old(p.Done()) + PrintItems(items, depth, fmt)
    decreases items, 1
  {
    hide Spans, Shows, AtChild, Print;
    ghost var all, k := p.Done() + PrintItems(items, depth, fmt), 0;
    assert items[0..] == items;
    ShownLength(item, items, t);
    Begin(t, item);
    var child := item.child;
    while child != null
      invariant 0 <= k <= |items| && p.Valid() && (p.buffer == old(p.buffer) || fresh(p.buffer))
      invariant AtChild(t, item, k, child) && Shows(item, Array(items), t)
      invariant p.Done() + PrintItems(items[k..], depth, fmt) == all
      decreases |items| - k
    {
      Proceed(t, item, k, child);
      PrintItem(p, child, depth, fmt, item, items, k, t);
      Proceed(t, item, k, child);
      k, child := k + 1, child.next;
    }
    AtEnd(t, item, k, child);
    EmptyRight(p.Done());
  }

  // One turn of that loop: a value and the separator behind it.
  method PrintItem(p: PrintBuffer, child: Node, depth: nat, fmt: bool,
                   ghost item: Node, ghost items: seq<Json>, ghost k: nat, ghost t: Forest)
    requires p.Valid() && PrintableItems(items) && k < |items|
    requires AtChild(t, item, k, child) && Shows(item, Array(items), t)
    requires p.offset + |PrintItems(items[k..], depth, fmt)| + 21 <= MAX_SIZE
    modifies p, p.buffer
    ensures p.Valid() && (p.buffer == old(p.buffer) || fresh(p.buffer))
    ensures p.Done() + PrintItems(items[k + 1..], depth, fmt) == old(p.Done()) + PrintItems(items[k..], depth, fmt)
    decreases items, 0
  {
    hide Spans, Shows;
    ghost var head := p.Done();
    ItemsStep(head, items, k, depth, fmt);
    ShownItem(item, items, t, k);
    Proceed(t, item, k, child);
    var ignored := PrintValue(p, child, depth, fmt, items[k], t);
    PrintNulFree(items[k], depth, fmt);
    StepOver(p, head, Print(items[k], depth, fmt));
    if child.next != null {
      p.Append(if fmt then ", " else ",", true);
    } else {
      EmptyRight(p.Done());
    }
  }

  method PrintObject(p: PrintBuffer, item: Node, depth: nat, fmt: bool, ghost members: seq<Member>, ghost t: Forest)
    returns (out: nat)
    requires p.Valid() && PrintableMembers(members) && p.offset + |Print(Object(members), depth, fmt)| + 21 <= MAX_SIZE
    requires Spans(t) && Shows(item, Object(members), t)
    modifies p, p.buffer
    ensures p.buffer == old(p.buffer) || fresh(p.buffer)
    ensures Printed(p, old(p.Done()), Print(Object(members), depth, fmt))
    ensures out == Returned(Object(members), depth, fmt, old(p.offset))
    decreases members, 3
  {
    hide Spans, Shows;
    var i := p.offset;
    MembersLength(item, members, t);
    var numentries := CountChildren(item, t);
    if numentries == 0 {
      Place(p, "{" + (if fmt then "\n" + Tabs(depth - 1) else "") + "}", if fmt then depth + 4 else 3);
      return i;
    }
    PrintFullObject(p, item, depth, fmt, members, t);
    if fmt {
      i := depth;
    }
    out := i;
  }

  // An object with members.
  method PrintFullObject(p: PrintBuffer, item: Node, depth: nat, fmt: bool,
                         ghost members: seq<Member>, ghost t: Forest)
    requires p.Valid() && PrintableMembers(members) && p.offset + |Print(Object(members), depth, fmt)| + 21 <= MAX_SIZE
    requires members != [] && Spans(t) && Shows(item, Object(members), t)
    modifies p, p.buffer
    ensures p.buffer == old(p.buffer) || fresh(p.buffer)
    ensures Printed(p, old(p.Done()), Print(Object(members), depth, fmt))
    decreases members, 2
  {
    hide Spans, Shows;
    ghost var head, all := p.Done(), PrintMembers(members, depth + 1, fmt);
    var open, closing := if fmt then "{\n" else "{", if fmt then Tabs(depth) else "";
    ObjectText(members, depth, fmt);
    p.Append(open, true);
    PrintAllMembers(p, item, depth + 1, fmt, members, t);
    Place(p, closing + "}", if fmt then depth + 2 else 2);
    Assoc(head, open, all);
    PrintedWhole(p, head, open + all, closing + "}");
  }

  method PrintAllMembers(p: PrintBuffer, item: Node, depth: nat, fmt: bool,
                         ghost members: seq<Member>, ghost t: Forest)
    requires p.Valid() && PrintableMembers(members) && depth > 0 && Spans(t) && Shows(item, Object(members), t)
    requires p.offset + |PrintMembers(members, depth, fmt)| + 21 <= MAX_SIZE
    modifies p, p.buffer
    ensures p.Valid() && (p.buffer == old(p.buffer) || fresh(p.buffer))
    ensures p.Done() == old(p.Done()) + PrintMembers(members, depth, fmt)
    decreases members, 1
  {
    hide Print, MemberStart, MemberEnd, PrintString, Spans, Shows, AtChild;
    ghost var all, k := p.Done() + PrintMembers(members, depth, fmt), 0;
    assert members[0..] == members;
    MembersLength(item, members, t);
    Begin(t, item);
    var child := item.child;
    while child != null
      invariant 0 <= k <= |members| && p.Valid() && (p.buffer == old(p.buffer) || fresh(p.buffer))
      invariant AtChild(t, item, k, child) && Shows(item, Object(members), t)
      invariant p.Done() + PrintMembers(members[k..], depth, fmt) == all
      decreases |members| - k
    {
      Proceed(t, item, k, child);
      PrintMember(p, child, depth, fmt, item, members, k, t);
      Proceed(t, item, k, child);
      k, child := k + 1, child.next;
    }
    AtEnd(t, item, k, child);
    EmptyRight(p.Done());
  }

  // One turn of that loop: indentation, name, colon, value and what ends the member.
  method PrintMember(p: PrintBuffer, child: Node, depth: nat, fmt: bool,
                     ghost item: Node, ghost members: seq<Member>, ghost k: nat, ghost t: Forest)
    requires p.Valid() && PrintableMembers(members) && k < |members| && depth > 0
    requires AtChild(t, item, k, child) && Shows(item, Object(members), t)
    requires p.offset + |PrintMembers(members[k..], depth, fmt)| + 21 <= MAX_SIZE
    modifies p, p.buffer
    ensures p.Valid() && (p.buffer == old(p.buffer) || fresh(p.buffer))
    ensures p.Done() + PrintMembers(members[k + 1..], depth, fmt)
         == old(p.Done()) + PrintMembers(members[k..], depth, fmt)
    decreases members, 0
  {
    hide Spans, Shows;
    ghost var head, m := p.Done(), members[k];
    MembersStep(head, members, k, depth, fmt);
    ShownMember(item, members, t, k);
    Proceed(t, item, k, child);
    PrintMemberStart(p, child.data.name.text, depth, fmt);
    ghost var before := p.Done();
    var ignored := PrintValue(p, child, depth, fmt, m.value, t);
    PrintNulFree(m.value, depth, fmt);
    StepOver(p, before, Print(m.value, depth, fmt));
    p.Append((if child.next != null then "," else "") + (if fmt then "\n" else ""), true);
  }

  method PrintMemberStart(p: PrintBuffer, name: Text, depth: nat, fmt: bool)
    requires p.Valid() && NulFree(name) && depth > 0
    requires p.offset + |MemberStart(name, depth, fmt)| + 1 <= MAX_SIZE
    modifies p, p.buffer
    ensures p.Valid() && (p.buffer == old(p.buffer) || fresh(p.buffer))
    ensures p.Done() == old(p.Done()) + MemberStart(name, depth, fmt)
  {
    ghost var head := p.Done();
    ghost var tabs := if fmt then Tabs(depth) else "";
    if fmt {
      p.Append(Tabs(depth), false);
    } else {
      EmptyRight(head);
    }
    ghost var before := p.Done();
    PrintStringPtr(p, name);
    EscapeNulFree(name);
    StepOver(p, before, PrintString(name));
    p.Append(if fmt then ":\t" else ":", false);
    Assoc4(head, tabs, PrintString(name), if fmt then ":\t" else ":");
  }

  // cJSON_PrintBuffered: the text stands where the returned pointer points.
  method PrintBuffered(item: Node, prebuffer: nat, fmt: bool, ghost v: Json, ghost t: Forest)
    returns (p: PrintBuffer, out: nat)
    requires prebuffer >= 1 && Printable(v) && |Print(v, 0, fmt)| + 21 <= MAX_SIZE
    requires Spans(t) && Shows(item, v, t)
    ensures var s := Print(v, 0, fmt);
      out + |s| < p.buffer.Length && p.buffer[out..out + |s|] == s && p.buffer[out + |s|] == '\0'
  {
    hide Spans, Shows;
    p := new PrintBuffer(prebuffer);
    out := PrintValue(p, item, 0, fmt, v, t);
    ghost var s := Print(v, 0, fmt);
    assert [] + s == s;
  }
}
