/** cJSON_Print and cJSON_PrintUnformatted: every value is printed into a buffer whose size is computed first. */
module JsonPrinter {
  import opened CText
  import opened JsonTree
  import opened JsonHeap
  import opened JsonPrinted
  import opened JsonStringPrinter
  import opened JsonWalk

  method Strlen(s: array<char>, ghost t: Text) returns (n: nat)
    requires HasText(s, t) && NulFree(t)
    ensures n == |t|
  {
    n := 0;
    assert forall i | 0 <= i < |t| :: s[i] == s[..|t|][i];
    while s[n] != '\0'
      invariant n <= |t|
      decreases |t| - n
    {
      n := n + 1;
    }
  }

  method Strdup(t: Text) returns (out: array<char>)
    ensures fresh(out) && HasText(out, t)
  {
    out := new char[|t| + 1](_ => '\0');
    var end := CopyText(out, 0, t);
    out[end] := '\0';
  }

  method PrintStringPtr(str: Text) returns (out: array<char>)
    requires NulFree(str)
    ensures fresh(out) && HasText(out, PrintString(str)) && out.Length == |PrintString(str)| + 1
  {
    var flag, needed := MeasureString(str);
    out := new char[needed](_ => '\0');
    WriteString(out, 0, str, flag);
  }

  method PrintNumber(m: int) returns (out: array<char>)
    requires IsInt32(m)
    ensures fresh(out) && HasText(out, Decimal(m))
  {
    DecimalLength(m);
    out := new char[if m == 0 then 2 else 21](_ => '\0');
    var end := CopyText(out, 0, Decimal(m));
    out[end] := '\0';
  }

  // item and the nodes below it stand for v.
  method PrintValue(item: Node, depth: nat, fmt: bool, ghost v: Json, ghost t: Forest) returns (out: array<char>)
    requires Printable(v) && Spans(t) && Shows(item, v, t)
    ensures fresh(out) && HasText(out, Print(v, depth, fmt))
    decreases v, 1
  {
    hide Spans;
    match item.data.kind
    case KindNull => out := Strdup("null");
    case KindFalse => out := Strdup("false");
    case KindTrue => out := Strdup("true");
    case KindNumber => out := PrintNumber(item.data.mantissa);
    case KindString => out := PrintStringPtr(item.data.valuestring.text);
    case KindArray => out := PrintArray(item, depth, fmt, v.items, t);
    case KindObject => out := PrintObject(item, depth, fmt, v.members, t);
  }

  // The room the printer adds up for the items.
  function ItemsRoom(items: seq<Json>, depth: nat, fmt: bool): nat
    requires PrintableItems(items)
  {
    if items == [] then 0
    else |Print(items[0], depth, fmt)| + 2 + (if fmt then 1 else 0) + ItemsRoom(items[1..], depth, fmt)
  }

  lemma {:induction false} ItemsFit(items: seq<Json>, depth: nat, fmt: bool)
    requires PrintableItems(items)
    ensures |PrintItems(items, depth, fmt)| <= ItemsRoom(items, depth, fmt)
  {
    if items != [] {
      ItemsFit(items[1..], depth, fmt);
    }
  }

  // The texts of the items, each in its own buffer, and their room.
  method PrintEntries(item: Node, depth: nat, fmt: bool, ghost items: seq<Json>, ghost t: Forest)
    returns (entries: seq<array<char>>, len: nat)
    requires PrintableItems(items) && Spans(t) && Shows(item, Array(items), t)
    ensures |entries| == |items| && (forall i | 0 <= i < |items| :: HasText(entries[i], Print(items[i], depth, fmt)))
    ensures len == 5 + ItemsRoom(items, depth, fmt)
    decreases items, 0
  {
    hide Spans, Shows, AtChild, HasText, Print;
    entries, len := [], 5;
    assert items[0..] == items;
    ShownLength(item, items, t);
    Begin(t, item);
    var child := item.child;
    while child != null
      invariant |entries| <= |items| && AtChild(t, item, |entries|, child)
      invariant forall i | 0 <= i < |entries| :: HasText(entries[i], Print(items[i], depth, fmt))
      invariant len + ItemsRoom(items[|entries|..], depth, fmt) == 5 + ItemsRoom(items, depth, fmt)
      decreases |items| - |entries|
    {
      ghost var k := |entries|;
      Proceed(t, item, k, child);
      ShownItem(item, items, t, k);
      var ret, n := PrintEntry(child, depth, fmt, items[k], t);
      assert items[k..][1..] == items[k + 1..];
      entries, len := entries + [ret], len + n + 2 + (if fmt then 1 else 0);
      child := child.next;
    }
    AtEnd(t, item, |entries|, child);
  }

  // The text of an item, and its length.
  method PrintEntry(child: Node, depth: nat, fmt: bool, ghost v: Json, ghost t: Forest)
    returns (ret: array<char>, n: nat)
    requires Printable(v) && Spans(t) && Shows(child, v, t)
    ensures HasText(ret, Print(v, depth, fmt)) && n == |Print(v, depth, fmt)|
    decreases v, 2
  {
    hide Spans, Shows;
    ret := PrintValue(child, depth, fmt, v, t);
    PrintNulFree(v, depth, fmt);
    n := Strlen(ret, Print(v, depth, fmt));
  }

  method PrintArray(item: Node, depth: nat, fmt: bool, ghost items: seq<Json>, ghost t: Forest)
    returns (out: array<char>)
    requires PrintableItems(items) && Spans(t) && Shows(item, Array(items), t)
    ensures fresh(out) && HasText(out, Print(Array(items), depth, fmt))
    decreases items, 1
  {
    hide Spans, Shows, PrintItems, ItemsRoom;
    ShownLength(item, items, t);
    var numentries := CountChildren(item, t);
    if numentries == 0 {
      EmptyArrayText(depth, fmt);
      out := Strdup("[]");
      return;
    }
    var entries, len := PrintEntries(item, depth + 1, fmt, items, t);
    out := new char[len](_ => '\0');
    ItemsFit(items, depth + 1, fmt);
    out[0] := '[';
    var ptr := ComposeItems(out, entries, items, depth + 1, fmt);
    ghost var done := out[..ptr];
    out[ptr], out[ptr + 1] := ']', '\0';
    assert out[..ptr + 1] == done + "]";
  }

  method ComposeItems(out: array<char>, entries: seq<array<char>>, ghost items: seq<Json>, ghost depth: nat, fmt: bool)
    returns (ptr: nat)
    requires PrintableItems(items) && |entries| == |items| && out !in entries
    requires forall i | 0 <= i < |items| :: HasText(entries[i], Print(items[i], depth, fmt))
    requires 1 + |PrintItems(items, depth, fmt)| <= out.Length && out[0] == '['
    modifies out
    ensures ptr == 1 + |PrintItems(items, depth, fmt)| && out[..ptr] == "[" + PrintItems(items, depth, fmt)
  {
    hide Print, HasText;
    ghost var all := "[" + PrintItems(items, depth, fmt);
    ptr := 1;
    var i := 0;
    assert items[0..] == items && out[..1] == "[";
    while i < |entries|
      invariant 0 <= i <= |entries| && 1 <= ptr <= out.Length
      invariant forall j | 0 <= j < |items| :: HasText(entries[j], Print(items[j], depth, fmt))
      invariant out[..ptr] + PrintItems(items[i..], depth, fmt) == all
    {
      ItemsStep(out[..ptr], items, i, depth, fmt);
      PrintNulFree(items[i], depth, fmt);
      assert entries[i] != out;
      ptr := AppendString(out, ptr, entries[i], Print(items[i], depth, fmt));
      ptr := AppendText(out, ptr, ItemEnd(i + 1 < |entries|, fmt));
      i := i + 1;
    }
    EmptyRight(out[..ptr]);
  }

  // Writes t at ptr and steps behind it.
  method AppendText(out: array<char>, at: nat, t: Text) returns (ptr: nat)
    requires at + |t| <= out.Length
    modifies out
    ensures ptr == at + |t| && out[..ptr] == old(out[..at]) + t
  {
    ptr := CopyText(out, at, t);
    assert out[..ptr] == out[..at] + out[at..ptr];
  }

  // The same for the text in a buffer, once its length is known.
  method AppendString(out: array<char>, at: nat, entry: array<char>, ghost t: Text) returns (ptr: nat)
    requires HasText(entry, t) && NulFree(t) && entry != out && at + |t| <= out.Length
    modifies out
    ensures ptr == at + |t| && out[..ptr] == old(out[..at]) + t
  {
    var tmplen := Strlen(entry, t);
    ptr := AppendText(out, at, entry[..tmplen]);
  }

  // The room the printer adds up for the members; depth is already that of the members.
  function MembersRoom(members: seq<Member>, depth: nat, fmt: bool): nat
    requires PrintableMembers(members)
  {
    if members == [] then 0
    else MemberRoom(members[0], depth, fmt) + MembersRoom(members[1..], depth, fmt)
  }

  function MemberRoom(m: Member, depth: nat, fmt: bool): nat
    requires Printable(m.value)
  {
    |Print(m.value, depth, fmt)| + |PrintString(m.name)| + 2 + (if fmt then 2 + depth else 0)
  }

  lemma {:induction false} MembersFit(members: seq<Member>, depth: nat, fmt: bool)
    requires PrintableMembers(members)
    ensures |PrintMembers(members, depth, fmt)| <= MembersRoom(members, depth, fmt)
  {
    if members != [] {
      MembersFit(members[1..], depth, fmt);
    }
  }

  lemma MembersRoomStep(members: seq<Member>, k: nat, depth: nat, fmt: bool)
    requires PrintableMembers(members) && k < |members|
    ensures MembersRoom(members[k..], depth, fmt)
         == MemberRoom(members[k], depth, fmt) + MembersRoom(members[k + 1..], depth, fmt)
  {
    assert members[k..][1..] == members[k + 1..];
  }

  // The texts of the first members stand in the buffers.
  ghost predicate Collected(names: seq<array<char>>, entries: seq<array<char>>, members: seq<Member>,
                            depth: nat, fmt: bool)
    requires PrintableMembers(members)
    reads names, entries
  {
    && |names| == |entries| <= |members|
    && (forall i | 0 <= i < |names| :: HasText(names[i], PrintString(members[i].name)))
    && (forall i | 0 <= i < |names| :: HasText(entries[i], Print(members[i].value, depth, fmt)))
  }

  // The texts of the names and of the values, and their room.
  method PrintNamesAndEntries(item: Node, depth: nat, fmt: bool, ghost members: seq<Member>, ghost t: Forest)
    returns (names: seq<array<char>>, entries: seq<array<char>>, len: nat)
    requires PrintableMembers(members) && Spans(t) && Shows(item, Object(members), t)
    ensures |entries| == |members| && Collected(names, entries, members, depth, fmt)
    ensures len == 7 + (if fmt then depth else 0) + MembersRoom(members, depth, fmt)
    decreases members, 0
  {
    hide Print, PrintString, HasText, Spans, Shows, AtChild, Collected, MemberRoom, MembersRoom;
    names, entries, len := [], [], 7;
    if fmt {
      len := len + depth;
    }
    ghost var all := len + MembersRoom(members, depth, fmt);
    assert members[0..] == members;
    MembersLength(item, members, t);
    NothingCollected(members, depth, fmt);
    Begin(t, item);
    var child := item.child;
    while child != null
      invariant |names| == |entries| <= |members| && Collected(names, entries, members, depth, fmt)
      invariant AtChild(t, item, |entries|, child) && len + MembersRoom(members[|entries|..], depth, fmt) == all
      decreases |members| - |entries|
    {
      Proceed(t, item, |entries|, child);
      ShownMember(item, members, t, |entries|);
      MembersRoomStep(members, |entries|, depth, fmt);
      var str, ret, room := PrintNameAndEntry(child, depth, fmt, members[|entries|], t);
      CollectedMore(names, entries, members, depth, fmt, str, ret);
      names, entries, len := names + [str], entries + [ret], len + room;
      child := child.next;
    }
    AtEnd(t, item, |entries|, child);
    NoRoomLeft(members, depth, fmt);
  }

  lemma NothingCollected(members: seq<Member>, depth: nat, fmt: bool)
    requires PrintableMembers(members)
    ensures Collected([], [], members, depth, fmt)
  {}

  lemma CollectedMore(names: seq<array<char>>, entries: seq<array<char>>, members: seq<Member>, depth: nat, fmt: bool,
                      str: array<char>, ret: array<char>)
    requires PrintableMembers(members) && Collected(names, entries, members, depth, fmt) && |entries| < |members|
    requires HasText(str, PrintString(members[|entries|].name))
    requires HasText(ret, Print(members[|entries|].value, depth, fmt))
    ensures Collected(names + [str], entries + [ret], members, depth, fmt)
  {
    hide Print, PrintString, HasText;
  }

  lemma NoRoomLeft(members: seq<Member>, depth: nat, fmt: bool)
    requires PrintableMembers(members)
    ensures MembersRoom(members[|members|..], depth, fmt) == 0
  {}

  method PrintNameAndEntry(child: Node, depth: nat, fmt: bool, ghost m: Member, ghost t: Forest)
    returns (str: array<char>, ret: array<char>, room: nat)
    requires NulFree(m.name) && Printable(m.value)
    requires Spans(t) && Shows(child, m.value, t) && TextOf(child.data.name) == Some(m.name)
    ensures HasText(str, PrintString(m.name)) && HasText(ret, Print(m.value, depth, fmt))
    ensures room == MemberRoom(m, depth, fmt)
    decreases m
  {
    hide Spans, Shows;
    str := PrintStringPtr(child.data.name.text);
    var n;
    ret, n := PrintEntry(child, depth, fmt, m.value, t);
    EscapeNulFree(m.name);
    var k := Strlen(str, PrintString(m.name));
    room := n + k + 2 + (if fmt then 2 + depth else 0);
  }

  method PrintObject(item: Node, depth: nat, fmt: bool, ghost members: seq<Member>, ghost t: Forest)
    returns (out: array<char>)
    requires PrintableMembers(members) && Spans(t) && Shows(item, Object(members), t)
    ensures fresh(out) && HasText(out, Print(Object(members), depth, fmt))
    decreases members, 2
  {
    hide Spans, Shows;
    MembersLength(item, members, t);
    var numentries := CountChildren(item, t);
    if numentries == 0 {
      out := new char[if fmt then depth + 4 else 3](_ => '\0');
      var end := CopyText(out, 0, "{" + (if fmt then "\n" + Tabs(depth - 1) else "") + "}");
      out[end] := '\0';
      return;
    }
    out := PrintFullObject(item, depth, fmt, members, t);
  }

  method PrintFullObject(item: Node, depth: nat, fmt: bool, ghost members: seq<Member>, ghost t: Forest)
    returns (out: array<char>)
    requires PrintableMembers(members) && members != [] && Spans(t) && Shows(item, Object(members), t)
    ensures fresh(out) && HasText(out, Print(Object(members), depth, fmt))
    decreases members, 1
  {
    hide Print, PrintMembers, MembersRoom, PrintString, Spans, Shows;
    var names, entries, len := PrintNamesAndEntries(item, depth + 1, fmt, members, t);
    out := new char[len](_ => '\0');
    MembersFit(members, depth + 1, fmt);
    ghost var all := PrintMembers(members, depth + 1, fmt);
    ObjectText(members, depth, fmt);
    var open, closing := if fmt then "{\n" else "{", if fmt then Tabs(depth) else "";
    var ptr := CopyText(out, 0, open);
    assert out[..ptr] == out[0..ptr];
    ptr := ComposeMembers(out, ptr, names, entries, members, depth + 1, fmt);
    ptr := AppendText(out, ptr, closing + "}");
    Terminate(out, ptr, open + all + (closing + "}"));
  }

  method Terminate(out: array<char>, ptr: nat, ghost t: Text)
    requires ptr < out.Length && out[..ptr] == t
    modifies out
    ensures HasText(out, t)
  {
    out[ptr] := '\0';
  }

  method ComposeMembers(out: array<char>, at: nat, names: seq<array<char>>, entries: seq<array<char>>,
                        ghost members: seq<Member>, depth: nat, fmt: bool)
    returns (ptr: nat)
    requires PrintableMembers(members) && |entries| == |members| && Collected(names, entries, members, depth, fmt)
    requires out !in names && out !in entries
    requires at + |PrintMembers(members, depth, fmt)| <= out.Length
    modifies out
    ensures ptr == at + |PrintMembers(members, depth, fmt)|
    ensures out[..ptr] == old(out[..at]) + PrintMembers(members, depth, fmt)
  {
    hide Print, PrintString, MemberStart, MemberEnd, HasText;
    ghost var all := out[..at] + PrintMembers(members, depth, fmt);
    ptr := at;
    var i := 0;
    assert members[0..] == members;
    while i < |entries|
      invariant 0 <= i <= |entries| && at <= ptr <= out.Length
      invariant Collected(names, entries, members, depth, fmt)
      invariant out[..ptr] + PrintMembers(members[i..], depth, fmt) == all
    {
      ghost var done := out[..ptr];
      MembersStep(done, members, i, depth, fmt);
      assert names[i] != out && entries[i] != out;
      ptr := ComposeMember(out, ptr, names[i], entries[i], i + 1 < |entries|, members[i], depth, fmt);
      i := i + 1;
    }
    EmptyRight(out[..ptr]);
  }

  method ComposeMember(out: array<char>, at: nat, name: array<char>, entry: array<char>, more: bool,
                       ghost m: Member, depth: nat, fmt: bool)
    returns (ptr: nat)
    requires NulFree(m.name) && Printable(m.value) && out != name && out != entry
    requires HasText(name, PrintString(m.name)) && HasText(entry, Print(m.value, depth, fmt))
    requires at + |MemberStart(m.name, depth, fmt)| + |Print(m.value, depth, fmt)| + |MemberEnd(more, fmt)|
          <= out.Length
    modifies out
    ensures at <= ptr <= out.Length
    ensures out[..ptr]
         == old(out[..at]) + MemberStart(m.name, depth, fmt) + Print(m.value, depth, fmt) + MemberEnd(more, fmt)
  {
    ghost var head := out[..at];
    EscapeNulFree(m.name);
    PrintNulFree(m.value, depth, fmt);
    ptr := AppendText(out, at, if fmt then Tabs(depth) else "");
    ptr := AppendString(out, ptr, name, PrintString(m.name));
    ptr := AppendText(out, ptr, if fmt then ":\t" else ":");
    Assoc4(head, if fmt then Tabs(depth) else "", PrintString(m.name), if fmt then ":\t" else ":");
    ptr := AppendString(out, ptr, entry, Print(m.value, depth, fmt));
    ptr := AppendText(out, ptr, MemberEnd(more, fmt));
  }

  // cJSON_Print and cJSON_PrintUnformatted.
  method PrintText(item: Node, fmt: bool, ghost v: Json, ghost t: Forest) returns (out: array<char>)
    requires Printable(v) && Spans(t) && Shows(item, v, t)
    ensures fresh(out) && HasText(out, Print(v, 0, fmt))
  {
    out := PrintValue(item, 0, fmt, v, t);
  }
}
