/** The library's operations one after the other: what one leaves is what the next one needs. */
module JsonSession {
  import opened CText
  import opened JsonTree
  import opened JsonHeap
  import opened JsonDelete
  import opened JsonEdits
  import opened JsonLists
  import opened JsonNestedEdits
  import opened JsonOwnership
  import opened JsonParser
  import opened JsonPaths
  import opened JsonPrinted
  import opened JsonPrinter
  import opened JsonValueEdits
  import opened JsonTreeEdits
  import opened JsonWalk
  import Lang = JsonParse
  import RoundTrip = JsonRoundTrip

  // Whatever shows a value is printed to a text from which the parser builds a tree of that value.
  method PrintAndParse(memory: Memory, item: Node, fmt: bool, ghost v: Json, ghost t: Forest)
    returns (copy: Node, ghost c: Content, ghost u: Forest)
    requires Printable(v) && Spans(t) && Shows(item, v, t)
    modifies memory
    ensures Represents(copy, v, c, u) && copy.next == null && fresh(u.Keys) && memory.freed == old(memory.freed)
  {
    hide Spans, Shows, Tree, Denotes, Print;
    var out := PrintText(item, fmt, v, t);
    PrintNulFree(v, 0, fmt);
    var n := Strlen(out, Print(v, 0, fmt));
    RoundTrip.PrintThenParse(v, fmt);
    var r;
    r, copy, c, u := ParseText(memory, out[..n], true);
  }

  method ParseDocument(memory: Memory, text: Text) returns (item: Node, ghost c: Content, ghost t: Forest)
    requires NulFree(text) && Lang.ParseText(text, true).Ok?
    modifies memory
    ensures Represents(item, Lang.ParseText(text, true).value, c, t) && item.next == null && fresh(t.Keys)
    ensures Live(t, memory.freed) && Rooted(item, t)
  {
    hide Tree, Denotes, Lang.ParseText, Live;
    var r;
    r, item, c, t := ParseText(memory, text, true);
    NewIsLive(item, c, t, memory.freed);
  }

  predicate Rooted(n: Node, t: Forest) {
    n in t && (forall m | m in t :: n !in t[m]) && forall m, k | m in t && k in t[m] :: k in t
  }

  lemma NewIsLive(n: Node, c: Content, t: Forest, freed: seq<object>)
    requires Tree(n, c, t) && forall m | m in t :: m !in freed && forall b | b in Strings(m.data) :: b !in freed
    ensures Live(t, freed) && Rooted(n, t)
  {}

  // Prints what the rest of a document stands for, and deletes it.
  method PrintAndDelete(memory: Memory, item: Node, fmt: bool, ghost v: Json, ghost c: Content, ghost t: Forest)
    returns (out: array<char>)
    requires Represents(item, v, c, t) && Printable(v) && item.next == null && Live(t, memory.freed)
    modifies memory
    ensures HasText(out, Print(v, 0, fmt)) && (forall o | o in old(memory.freed) :: o in memory.freed)
    ensures forall m | m in t :: m in memory.freed
  {
    hide Spans, Shows, Tree, Denotes, Print, Live;
    TreeShows(item, v, c, t);
    out := PrintText(item, fmt, v, t);
    DeleteTree(memory, item, c, t);
  }

  // Parses an array, deletes one item, prints the rest and deletes that: the text is that of the array without the
  // item, and no node of the parsed tree is left.
  method PrintWithout(memory: Memory, text: Text, which: int, fmt: bool) returns (out: array<char>, ghost t: Forest)
    requires NulFree(text) && Lang.ParseText(text, true).Ok?
    requires Lang.ParseText(text, true).value.Array? && Printable(Lang.ParseText(text, true).value)
    modifies memory
    ensures var items := Lang.ParseText(text, true).value.items;
            && PrintableItems(Removed(items, Index(which)))
            && HasText(out, Print(Array(Removed(items, Index(which))), 0, fmt))
    ensures t != map[] && forall n | n in t :: n in memory.freed
  {
    hide Represents, Print, Lang.ParseText, Live, FreedChild;
    ghost var items := Lang.ParseText(text, true).value.items;
    ghost var c, e, w;
    var item;
    item, c, t := ParseDocument(memory, text);
    forall i | 0 <= i < |t[item]| ensures fresh(t[item][i]) {
      assert t[item][i] in t[item] && t[item][i] in t;
    }
    e, w := JsonValueEdits.DeleteItem(memory, item, which, items, c, t);
    RestPrintable(items, Index(which));
    out := PrintAndDelete(memory, item, fmt, Array(Removed(items, Index(which))), e, w);
  }

  // v with item j of its member s taken out, if there is such a member and it is an array.
  function WithoutIn(v: Json, s: Text, j: nat): Json
    requires v.Object?
  {
    var i := FirstMember(v.members, s);
    if i >= |v.members| || !v.members[i].value.Array? then v
    else
      var m := v.members[i];
      Object(v.members[i := Member(m.name, Array(Removed(m.value.items, j)))])
  }

  lemma StillPrintable(v: Json, s: Text, j: nat)
    requires v.Object? && Printable(v)
    ensures Printable(WithoutIn(v, s, j))
  {
    var i := FirstMember(v.members, s);
    if i < |v.members| && v.members[i].value.Array? {
      var items := v.members[i].value.items;
      assert Printable(v.members[i].value);
      RestPrintable(items, j);
      var after := WithoutIn(v, s, j);
      forall k | 0 <= k < |after.members|
        ensures NulFree(after.members[k].name) && Printable(after.members[k].value)
      {
        assert Printable(v.members[k].value);
      }
    }
  }

  lemma RestPrintable(items: seq<Json>, j: nat)
    requires PrintableItems(items)
    ensures PrintableItems(Removed(items, j))
  {
    hide Printable, Removed;
    RemovedLengths(items, items, j);
    forall k | 0 <= k < |Removed(items, j)| ensures Printable(Removed(items, j)[k]) {
      RemovedAt(items, j, k);
    }
  }

  // Parses an object, deletes an item of the array that is its member of that name, prints the whole and deletes it.
  method PrintWithoutIn(memory: Memory, text: Text, name: StringBlock, which: int, fmt: bool)
    returns (out: array<char>, ghost t: Forest)
    requires NulFree(text) && Lang.ParseText(text, true).Ok?
    requires Lang.ParseText(text, true).value.Object? && Printable(Lang.ParseText(text, true).value)
    requires var members := Lang.ParseText(text, true).value.members;
             var i := FirstMember(members, name.text);
             i < |members| ==> members[i].value.Array?
    modifies memory
    ensures var v := WithoutIn(Lang.ParseText(text, true).value, name.text, Index(which));
            Printable(v) && HasText(out, Print(v, 0, fmt))
    ensures t != map[] && forall n | n in t :: n in memory.freed
  {
    hide Represents, Print, Lang.ParseText, Live, WithoutIn;
    ghost var v := Lang.ParseText(text, true).value;
    ghost var c, e, w;
    var item;
    item, c, t := ParseDocument(memory, text);
    e, w := TakeFromMember(memory, item, name, which, v, c, t);
    StillPrintable(v, name.text, Index(which));
    out := PrintAndDelete(memory, item, fmt, WithoutIn(v, name.text, Index(which)), e, w);
  }

  // Deletes an item of the array that is the member of that name.
  method TakeFromMember(memory: Memory, item: Node, name: StringBlock, which: int,
                        ghost v: Json, ghost c: Content, ghost t: Forest)
    returns (ghost e: Content, ghost w: Forest)
    requires Represents(item, v, c, t) && Rooted(item, t) && Live(t, memory.freed) && v.Object?
    requires var i := FirstMember(v.members, name.text);
             i < |v.members| ==> v.members[i].value.Array?
    modifies memory, t.Keys`child, t.Keys`next, t.Keys`prev
    ensures Represents(item, WithoutIn(v, name.text, Index(which)), e, w) && item.next == old(item.next)
    ensures Live(w, memory.freed) && w.Keys <= t.Keys && forall m | m in t :: m in w <==> m !in memory.freed
  {
    hide Represents, Tree, Denotes, Live, Document;
    ghost var i := FirstMember(v.members, name.text);
    WholeDocument(item, v, c, t);
    var k := GetMemberBelow(item, name, item, [], v.members, v, c, t);
    e, w := c, t;
    if k != null {
      ghost var items := v.members[i].value.items;
      assert [] + [i] == [i];
      InDocument(item, v, c, t, [i], k, Array(items));
      e, w := DeleteBelow(memory, k, which, item, [i], items, v, c, t);
      ghost var x := Array(Removed(items, Index(which)));
      BecameTree(item, v, e, w, [i], k, x);
      assert Edited(v.members[i].value, [i][1..], x) == x;
    } else {
      LiveNodes(t, memory.freed);
    }
  }
}
