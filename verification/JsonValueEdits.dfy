/** The edits on whole trees, for what they stand for: each keeps a tree that can be edited, printed and deleted. */
module JsonValueEdits {
  import opened CText
  import opened JsonTree
  import opened JsonHeap
  import opened JsonDelete
  import opened JsonLists
  import opened JsonObjects
  import opened JsonTreeEdits
  import JsonEdits

  lemma ItemsDenoted(c: Content, items: seq<Json>)
    requires Denotes(c, Array(items))
    ensures |c.kids| == |items| && forall i | 0 <= i < |items| :: Denotes(c.kids[i], items[i])
  {}

  // Inserting an item, behind the last one too, where the code hands over to cJSON_AddItemToArray.
  method InsertItem(parent: Node, which: int, newitem: Node, ghost items: seq<Json>, ghost x: Json,
                    ghost c: Content, ghost t: Forest, ghost d: Content, ghost u: Forest)
    returns (ghost e: Content, ghost w: Forest)
    requires Represents(parent, Array(items), c, t) && Represents(newitem, x, d, u)
    requires t.Keys !! u.Keys && Strangers(t, u)
    requires Index(which) >= |t[parent]| ==> newitem.next == null && (t[parent] == [] ==> newitem.prev == null)
    modifies parent`child, t[parent]`next, t[parent]`prev, newitem`next, newitem`prev
    ensures Represents(parent, Array(Inserted(items, Index(which), x)), e, w) && w.Keys == t.Keys + u.Keys
  {
    hide Linked, IsRoot, Separate, Reached, Strangers, Matches, Denotes;
    e := Content(c.own, Inserted(c.kids, Index(which), d));
    JsonEdits.InsertItem(parent, c, items, t, newitem, d, x, u, Index(which));
    SameLength(parent, c, t);
    w := InsertTree(parent, which, newitem, c, t, d, u);
  }

  // The item taken out keeps its value.
  method DetachItem(parent: Node, which: int, ghost items: seq<Json>, ghost c: Content, ghost t: Forest)
    returns (k: Node?, ghost d: Content, ghost v: Forest, ghost e: Content, ghost w: Forest)
    requires Represents(parent, Array(items), c, t)
    modifies parent`child, t[parent]`next, t[parent]`prev
    ensures (k == null <==> Index(which) >= |items|) && (k == null ==> w == t)
    ensures Represents(parent, Array(Removed(items, Index(which))), e, w)
    ensures k != null ==> Represents(k, items[Index(which)], d, v) && k.next == null && k.prev == null
    ensures k != null ==> v.Keys !! w.Keys && v.Keys + w.Keys == t.Keys && Strangers(v, w)
  {
    hide Linked, IsRoot, Separate, Reached, Strangers, Matches, Denotes;
    ItemsDenoted(c, items);
    e := Content(c.own, Removed(c.kids, Index(which)));
    JsonEdits.RemoveItem(parent, c, items, t, Index(which));
    k, v, w := DetachTree(parent, which, c, t);
    d := if k == null then c else c.kids[Index(which)];
  }

  // What is taken out is freed, and nothing that stays.
  method DeleteItem(memory: Memory, parent: Node, which: int, ghost items: seq<Json>, ghost c: Content, ghost t: Forest)
    returns (ghost e: Content, ghost w: Forest)
    requires Represents(parent, Array(items), c, t) && Live(t, memory.freed)
    modifies memory, parent`child, t[parent]`next, t[parent]`prev
    ensures Represents(parent, Array(Removed(items, Index(which))), e, w) && Live(w, memory.freed) && w.Keys <= t.Keys
    ensures memory.freed == old(memory.freed) + old(FreedChild(parent, c, t, Index(which)))
    ensures forall m | m in t :: m in w <==> m !in memory.freed
  {
    hide Linked, IsRoot, Separate, Reached, Strangers, Matches, Denotes, Live;
    SameLength(parent, c, t);
    e := Content(c.own, Removed(c.kids, Index(which)));
    JsonEdits.RemoveItem(parent, c, items, t, Index(which));
    ghost var v;
    v, w := DeleteFromTree(memory, parent, which, c, t);
    forall m | m in t ensures m in w <==> m !in memory.freed {
      if Index(which) < |c.kids| {
        FreedOrKept(old(memory.freed), t[parent][Index(which)], c.kids[Index(which)], v, w, m);
      } else {
        LiveNodes(t, memory.freed);
      }
    }
  }

  // The new item takes the place of the old one, which is freed.
  method ReplaceItem(memory: Memory, parent: Node, which: int, newitem: Node, ghost items: seq<Json>, ghost x: Json,
                     ghost c: Content, ghost t: Forest, ghost d: Content, ghost u: Forest)
    returns (ghost e: Content, ghost w: Forest)
    requires Represents(parent, Array(items), c, t) && Represents(newitem, x, d, u)
    requires t.Keys !! u.Keys && Strangers(t, u) && Live(t, memory.freed) && Live(u, memory.freed)
    modifies memory, parent`child, t[parent]`next, t[parent]`prev, newitem`next, newitem`prev
    ensures Represents(parent, Array(Updated(items, Index(which), x)), e, w) && Live(w, memory.freed)
    ensures memory.freed == old(memory.freed) + old(FreedChild(parent, c, t, Index(which)))
    ensures w.Keys <= t.Keys + u.Keys
    ensures forall m | m in t :: m in w <==> m !in memory.freed
    ensures if Index(which) < |items| then u.Keys <= w.Keys else w == t && memory.freed == old(memory.freed)
  {
    hide Linked, IsRoot, Separate, Reached, Strangers, Matches, Denotes, Live;
    e := Content(c.own, Updated(c.kids, Index(which), d));
    ItemsDenoted(c, items);
    JsonEdits.UpdateItem(parent, c, items, t, newitem, d, x, u, Index(which));
    ghost var v;
    v, w := ReplaceInTree(memory, parent, which, newitem, c, t, d, u);
  }

  // The first member of that name is taken out.
  method DetachMember(parent: Node, name: StringBlock, ghost members: seq<Member>, ghost c: Content, ghost t: Forest)
    returns (k: Node?, ghost d: Content, ghost v: Forest, ghost e: Content, ghost w: Forest)
    requires Represents(parent, Object(members), c, t)
    modifies parent`child, t[parent]`next, t[parent]`prev
    ensures var i := JsonEdits.FirstMember(members, name.text);
            && Represents(parent, Object(Removed(members, i)), e, w)
            && (k == null <==> i >= |members|) && (k == null ==> w == t)
            && (k != null ==> Represents(k, members[i].value, d, v) && k.next == null && k.prev == null)
            && (k != null ==> v.Keys !! w.Keys && v.Keys + w.Keys == t.Keys && Strangers(v, w))
  {
    hide Linked, IsRoot, Separate, Reached, Strangers, Matches, Denotes, Severable, ChildList, OtherLists;
    SameLength(parent, c, t);
    ghost var i, ks := JsonEdits.FirstMember(members, name.text), t[parent];
    MembersDenoted(c, members);
    JsonEdits.RemoveMember(parent, c, members, t, name.text);
    OthersOf(parent, t);
    TreeIsShape(parent, c, t);
    v, e, w := map[], Content(c.own, Removed(c.kids, i)), t;
    if i < |ks| {
      v, w := Sever(parent, c, t, i);
    }
    assert forall x | x in ks :: x in Members(ks);
    k := DetachItemFromObject(parent, name, ks);
    if k == null {
      AllOf(parent, ks, t, t);
      TreeIsShape(parent, c, t);
      d := c;
    } else {
      NowParted(parent, c, t, ks, i, v, w);
      d := c.kids[i];
    }
  }

  lemma MembersDenoted(c: Content, members: seq<Member>)
    requires Denotes(c, Object(members))
    ensures |c.kids| == |members| && DenotesMembers(c.kids, members)
    ensures forall i | 0 <= i < |members| :: Denotes(c.kids[i], members[i].value)
    ensures forall cs, ms | DenotesMembers(cs, ms) :: Denotes(Content(c.own, cs), Object(ms))
  {}

  // The name does not belong to the value.
  lemma DenotesRenamed(d: Content, x: Json, name: Option<Text>)
    requires Denotes(d, x)
    ensures Denotes(Content(d.own.(name := name), d.kids), x)
  {}

  // A shape whose top has a new name of its own.
  lemma Renamed(item: Node, was: Data, d: Content, u: Forest)
    requires Headless(item, d.kids, u) && StrangerTo(was, Without(item, u)) && OwnsItself(was) && d.own == OwnOf(was)
    requires item.data.name != null && item.data == was.(name := item.data.name) && item.data.name != was.valuestring
    requires forall k | k in u && k != item :: item.data.name !in Strings(k.data)
    ensures Shape(item, Content(d.own.(name := TextOf(item.data.name)), d.kids), u)
  {
    hide Headless, Shape;
    NewName(was, item.data.name, Without(item, u));
    Crown(item, d.kids, u);
  }

  lemma StillStrangers(t: Forest, u: Forest, item: Node, was: Data)
    requires item in u && t.Keys !! u.Keys && Strangers(t, Without(item, u)) && StrangerTo(was, t)
    requires item.data.name != null && item.data == was.(name := item.data.name)
    requires forall k | k in t :: item.data.name !in Strings(k.data)
    ensures Strangers(t, u)
  {
    NewName(was, item.data.name, t);
    forall m, n | m in t && n in u ensures ShareNothing(m.data, n.data) {
      if n == item {
        assert ShareNothing(item.data, m.data);
      } else {
        assert n in Without(item, u);
      }
    }
  }

  lemma StrangersSplit(t: Forest, u: Forest, item: Node)
    requires Strangers(t, u) && item in u
    ensures Strangers(t, Without(item, u)) && StrangerTo(item.data, t)
  {
    forall m | m in t ensures ShareNothing(item.data, m.data) {
      assert ShareNothing(m.data, item.data);
    }
  }

  // Nothing of what a node and the forest hold has been freed.
  lemma LiveAgain(freed: seq<object>, was: seq<object>, u: Forest, item: Node, d: Data)
    requires item in u && Live(Without(item, u), was) && item !in was && forall b | b in Strings(d) :: b !in was
    requires StrangerTo(d, Without(item, u)) && OwnsItself(d) && freed == was + NameDropped(d)
    requires item.data.name != null && item.data == d.(name := item.data.name) && item.data.name !in freed
    ensures Live(u, freed)
  {
    forall n | n in u ensures n !in freed && forall b | b in Strings(n.data) :: b !in freed {
      if n != item {
        assert n in Without(item, u) && ShareNothing(d, n.data);
        assert d.name != null ==> d.name in Strings(d);
      }
    }
  }

  lemma LiveBeside(was: seq<object>, t: Forest, d: Data)
    requires Live(t, was) && StrangerTo(d, t)
    ensures Live(t, was + NameDropped(d))
  {
    forall n | n in t
      ensures n !in was + NameDropped(d) && forall b | b in Strings(n.data) :: b !in was + NameDropped(d)
    {
      assert ShareNothing(d, n.data);
      assert d.name != null ==> d.name in Strings(d);
    }
  }

  // What is at hand before a named item joins an object, apart from the name.
  ghost predicate Joinable(parent: Node, c: Content, t: Forest, item: Node, d: Content, u: Forest, ks: seq<Node>,
                           was: Data, freed: seq<object>)
    reads t.Keys`data, (u.Keys - {item})`data, (t.Keys + u.Keys - {parent})`child
    reads (t.Keys + u.Keys - Members(ks))`next, (t.Keys + u.Keys - Members(ks))`prev
  {
    && Shape(parent, c, t) && Headless(item, d.kids, u) && OtherLists(parent, ks, t + u) && t.Keys !! u.Keys
    && OwnsItself(was) && d.own == OwnOf(was) && StrangerTo(was, Without(item, u)) && StrangerTo(was, t)
    && Strangers(t, Without(item, u)) && Live(t, freed) && Live(Without(item, u), freed)
    && item !in freed && forall b | b in Strings(was) :: b !in freed
  }

  lemma ReadyToJoin(parent: Node, c: Content, t: Forest, item: Node, d: Content, u: Forest, freed: seq<object>)
    requires Tree(parent, c, t) && Tree(item, d, u) && t.Keys !! u.Keys && Strangers(t, u)
    requires Live(t, freed) && Live(u, freed)
    ensures parent in t && ChildList(parent, t[parent]) && item in u && item !in t && item !in t[parent]
    ensures Joinable(parent, c, t, item, d, u, t[parent] + [item], item.data, freed)
    ensures OwnsItself(item.data) && forall b | b in Strings(item.data) :: b !in freed
  {
    hide Separate, Reached, OtherLists, ChildList, Headless, StrangerTo;
    SameLength(parent, c, t);
    OthersOf(parent, t);
    OthersOfBoth(parent, t, item, u);
    TreeIsShape(parent, c, t);
    TreeIsShape(item, d, u);
    Behead(item, d, u);
    StrangersSplit(t, u, item);
    OwnHeld(item, d, u);
  }

  // A named item behind the other members.
  lemma Joined(parent: Node, c: Content, t: Forest, item: Node, d: Content, u: Forest, ks: seq<Node>,
               was: Data, freed: seq<object>, now: seq<object>) returns (e: Content, w: Forest)
    requires Joinable(parent, c, t, item, d, u, ks + [item], was, freed) && parent in t && t[parent] == ks
    requires ChildList(parent, ks + [item]) && now == freed + NameDropped(was)
    requires item.data.name != null && item.data == was.(name := item.data.name) && item.data.name !in now
    requires item.data.name != was.valuestring
    requires forall k | k in t || (k in u && k != item) :: item.data.name !in Strings(k.data)
    ensures e == Content(c.own, c.kids + [Content(d.own.(name := TextOf(item.data.name)), d.kids)])
    ensures Tree(parent, e, w) && w.Keys == t.Keys + u.Keys && Live(w, now)
  {
    hide Separate, Reached, OtherLists, ChildList, Headless, StrangerTo, Strangers, Live, OwnsItself, NameDropped;
    var d' := Content(d.own.(name := TextOf(item.data.name)), d.kids);
    InU(item, d, u);
    Renamed(item, was, d, u);
    StillStrangers(t, u, item, was);
    LiveBeside(freed, t, was);
    LiveAgain(now, freed, u, item, was);
    SameLength(parent, c, t);
    PutTogether(parent, c, t, item, d', u, |ks|);
    e, w := Content(c.own, c.kids + [d']), (t + u)[parent := ks + [item]];
    assert e == Content(c.own, Inserted(c.kids, |ks|, d'));
    AllOf(parent, ks + [item], t + u, w);
    TreeIsShape(parent, e, w);
    LiveTogether(now, t, u, w);
  }

  lemma InU(item: Node, d: Content, u: Forest)
    requires Headless(item, d.kids, u)
    ensures item in u
  {}

  // What the tree of an item holds when the item has a new name.
  ghost function Named(d: Content, name: Text): Content {
    Content(d.own.(name := Some(name)), d.kids)
  }

  // Its tree behind the others.
  method AddNamed(memory: Memory, parent: Node, name: StringBlock, item: Node,
                  ghost c: Content, ghost t: Forest, ghost d: Content, ghost u: Forest)
    returns (ghost w: Forest)
    requires Tree(parent, c, t) && Tree(item, d, u)
    requires t.Keys !! u.Keys && Strangers(t, u) && Live(t, memory.freed) && Live(u, memory.freed)
    requires item.next == null && (t[parent] == [] ==> item.prev == null)
    requires name !in memory.freed && name != item.data.name
    modifies memory, parent`child, t[parent]`next, item`prev, item`data
    ensures Tree(parent, Content(c.own, c.kids + [Named(d, name.text)]), w)
    ensures w.Keys == t.Keys + u.Keys && Live(w, memory.freed)
    ensures item in u && memory.freed == old(memory.freed) + NameDropped(old(item.data))
    ensures item.data.name != null && fresh(item.data.name) && item.data == old(item.data).(name := item.data.name)
  {
    hide Linked, IsRoot, Separate, Reached, Strangers, Matches, Live, ChildList, Joinable;
    ReadyToJoin(parent, c, t, item, d, u, memory.freed);
    ghost var e, ks, was := c, t[parent], item.data;
    assert was.name != null ==> was.name in Strings(was);
    assert forall k | k in ks + [item] :: k in Members(ks + [item]);
    AddItemToObject(memory, parent, name, item, ks);
    forall k | k in t || (k in u && k != item) ensures item.data.name !in Strings(k.data) {
      assert k.data == old(k.data);
    }
    e, w := Joined(parent, c, t, item, d, u, ks, was, old(memory.freed), memory.freed);
  }

  // cJSON_AddItemToObject: the item becomes the last member, under a copy of the name.
  method AddMember(memory: Memory, parent: Node, name: StringBlock, item: Node, ghost members: seq<Member>,
                   ghost x: Json, ghost c: Content, ghost t: Forest, ghost d: Content, ghost u: Forest)
    returns (ghost e: Content, ghost w: Forest)
    requires Represents(parent, Object(members), c, t) && Represents(item, x, d, u)
    requires t.Keys !! u.Keys && Strangers(t, u) && Live(t, memory.freed) && Live(u, memory.freed)
    requires item.next == null && (t[parent] == [] ==> item.prev == null)
    requires name !in memory.freed && name != item.data.name
    modifies memory, parent`child, t[parent]`next, item`prev, item`data
    ensures Represents(parent, Object(members + [Member(name.text, x)]), e, w)
    ensures w.Keys == t.Keys + u.Keys && Live(w, memory.freed)
    ensures memory.freed == old(memory.freed) + NameDropped(old(item.data))
    ensures item.data.name != null && fresh(item.data.name) && item.data == old(item.data).(name := item.data.name)
  {
    hide Linked, IsRoot, Separate, Reached, Strangers, Matches, Denotes, DenotesMembers, Live;
    MembersDenoted(c, members);
    DenotesRenamed(d, x, Some(name.text));
    e := Content(c.own, c.kids + [Named(d, name.text)]);
    DenotesOneMoreMember(c.kids, members, Named(d, name.text), Member(name.text, x));
    w := AddNamed(memory, parent, name, item, c, t, d, u);
  }

  // cJSON_DeleteItemFromObject: the first member of that name is taken out and freed.
  method DeleteMember(memory: Memory, parent: Node, name: StringBlock, ghost members: seq<Member>,
                      ghost c: Content, ghost t: Forest)
    returns (ghost e: Content, ghost w: Forest)
    requires Represents(parent, Object(members), c, t) && Live(t, memory.freed)
    modifies memory, parent`child, t[parent]`next, t[parent]`prev
    ensures Represents(parent, Object(Removed(members, JsonEdits.FirstMember(members, name.text))), e, w)
    ensures memory.freed
         == old(memory.freed) + old(FreedChild(parent, c, t, JsonEdits.FirstMember(members, name.text)))
    ensures Live(w, memory.freed) && w.Keys <= t.Keys && forall m | m in t :: m in w <==> m !in memory.freed
  {
    hide Linked, IsRoot, Separate, Reached, Strangers, Matches, Denotes, Severable, ChildList, OtherLists, Live;
    hide FreeOrder, Disposable;
    SameLength(parent, c, t);
    ghost var i, ks := JsonEdits.FirstMember(members, name.text), t[parent];
    ghost var v, d := map[], c;
    MembersDenoted(c, members);
    JsonEdits.RemoveMember(parent, c, members, t, name.text);
    OthersOf(parent, t);
    TreeIsShape(parent, c, t);
    e, w := Content(c.own, Removed(c.kids, i)), t;
    if i < |ks| {
      d := c.kids[i];
      v, w := Sever(parent, c, t, i);
      ReadyToDispose(memory, parent, c, t, i, v, w);
    }
    assert forall x | x in ks :: x in Members(ks);
    DisposableNothing(memory, ks, i, {parent} + Members(ks), d, v);
    DeleteItemFromObject(memory, parent, name, ks, d, v);
    if i < |ks| {
      NowParted(parent, c, t, ks, i, v, w);
      StaysLive(old(memory.freed), ks[i], d, t, v, w);
      assert memory.freed == old(memory.freed) + FreeOrder(ks[i], d, v);
    } else {
      assert memory.freed == old(memory.freed);
      AllOf(parent, ks, t, t);
      TreeIsShape(parent, c, t);
    }
    forall m | m in t ensures m in w <==> m !in memory.freed {
      if i < |ks| {
        FreedOrKept(old(memory.freed), ks[i], d, v, w, m);
      } else {
        LiveNodes(t, memory.freed);
      }
    }
  }

  lemma LiveWhole(freed: seq<object>, u: Forest, item: Node)
    requires Live(Without(item, u), freed) && item !in freed && forall b | b in Strings(item.data) :: b !in freed
    ensures Live(u, freed)
  {
    forall n | n in u ensures n !in freed && forall b | b in Strings(n.data) :: b !in freed {
      assert n != item ==> n in Without(item, u);
    }
  }

  // A named item in the place of child i.
  lemma Superseded(parent: Node, c: Content, t: Forest, item: Node, d: Content, u: Forest, ks: seq<Node>, i: nat,
                   v: Forest, rest: Forest, was: Data, freed: seq<object>) returns (e: Content, w: Forest)
    requires Joinable(parent, c, t, item, d, u, ks + [item], was, freed) && parent in t && t[parent] == ks
    requires i < |c.kids| && |ks| == |c.kids| && Severable(parent, c, t, ks, i, v, rest)
    requires ChildList(parent, Updated(ks, i, item))
    requires item.data.name != null && item.data == was.(name := item.data.name) && item.data.name !in freed
    requires item.data.name != was.valuestring
    requires forall k | k in t || (k in u && k != item) :: item.data.name !in Strings(k.data)
    ensures e == Content(c.own, Updated(c.kids, i, Content(d.own.(name := TextOf(item.data.name)), d.kids)))
    ensures Matches(ks[i], c.kids[i], v) && Tree(parent, e, w) && Live(w, freed + FreeOrder(ks[i], c.kids[i], v))
    ensures w.Keys == t.Keys - v.Keys + u.Keys
  {
    hide Separate, Reached, OtherLists, ChildList, Headless, StrangerTo, Strangers, Live, Shape, Severable;
    var d' := Content(d.own.(name := TextOf(item.data.name)), d.kids);
    InU(item, d, u);
    Renamed(item, was, d, u);
    StillStrangers(t, u, item, was);
    LiveWhole(freed, u, item);
    SeveredParts(parent, c, t, i, v, rest);
    w := Exchange(parent, c, t, i, v, rest, item, d', u);
    e := Content(c.own, Updated(c.kids, i, d'));
    ExchangeStaysLive(freed, ks[i], c.kids[i], t, v, rest, u, w);
    ClosedShape(parent, e, w);
    AllOf(parent, ks + [item], t + u, w);
    TreeIsShape(parent, e, w);
  }

  lemma ClosedShape(n: Node, c: Content, t: Forest)
    requires Shape(n, c, t)
    ensures Closed(t) && n in t
  {}

  // Its tree in the place of the first member of that name.
  method ReplaceNamed(memory: Memory, parent: Node, name: StringBlock, newitem: Node,
                      ghost c: Content, ghost t: Forest, ghost d: Content, ghost u: Forest)
    returns (ghost i: nat, ghost w: Forest)
    requires Tree(parent, c, t) && Tree(newitem, d, u)
    requires t.Keys !! u.Keys && Strangers(t, u) && Live(t, memory.freed) && Live(u, memory.freed)
    requires name !in memory.freed
    modifies memory, parent`child, t[parent]`next, t[parent]`prev, newitem`next, newitem`prev, newitem`data
    ensures i == old(FirstNamed(t[parent], Some(name.text))) && |t[parent]| == |c.kids|
    ensures Tree(parent, Content(c.own, Updated(c.kids, i, Named(d, name.text))), w) && Live(w, memory.freed)
    ensures forall m | m in t :: m in w <==> m !in memory.freed
    ensures if i < |c.kids| then u.Keys <= w.Keys else w == t && memory.freed == old(memory.freed)
    ensures w.Keys <= t.Keys + u.Keys && memory.freed == old(memory.freed) + old(FreedChild(parent, c, t, i))
    ensures newitem.data == old(newitem.data).(name := newitem.data.name)
    ensures if i < |c.kids| then newitem.data.name != null && fresh(newitem.data.name)
            else newitem.data == old(newitem.data)
  {
    hide Tree, Strangers, Matches, Live, ChildList, Joinable, Severable, Disposable, OtherLists, FreeOrder, Shape;
    hide FirstNamed, OwnsItself, Members;
    ghost var v, rest, kid;
    i, v, rest, kid := ReadyToSupersede(memory, parent, name, newitem, c, t, d, u);
    ghost var ks, was := t[parent], newitem.data;
    ReplaceItemInObject(memory, parent, name, newitem, ks, kid, v);
    if i < |ks| {
      forall k | k in t || (k in u && k != newitem) ensures newitem.data.name !in Strings(k.data) {
        assert k.data == old(k.data);
      }
      ghost var e;
      e, w := Superseded(parent, c, t, newitem, d, u, ks, i, v, rest, was, old(memory.freed));
      assert memory.freed == old(memory.freed) + FreeOrder(ks[i], kid, v);
    } else {
      assert memory.freed == old(memory.freed);
      w := t;
      Unchanged(parent, c, t, ks);
      assert Content(c.own, Updated(c.kids, i, Named(d, name.text))) == c;
    }
    LiveNodes(w, memory.freed);
  }

  lemma ReadyToSupersede(memory: Memory, parent: Node, name: StringBlock, newitem: Node,
                         c: Content, t: Forest, d: Content, u: Forest)
    returns (i: nat, v: Forest, rest: Forest, kid: Content)
    requires Tree(parent, c, t) && Tree(newitem, d, u)
    requires t.Keys !! u.Keys && Strangers(t, u) && Live(t, memory.freed) && Live(u, memory.freed)
    ensures parent in t && |t[parent]| == |c.kids| && i == FirstNamed(t[parent], Some(name.text))
    ensures i < |c.kids| ==>
              && kid == c.kids[i] && Severable(parent, c, t, t[parent], i, v, rest)
              && Matches(t[parent][i], kid, v) && FreeOrder(t[parent][i], kid, v) == FreedChild(parent, c, t, i)
              && forall m | m in v :: m in FreeOrder(t[parent][i], kid, v)
    ensures Disposable(memory, t[parent], i, {parent, newitem} + Members(t[parent]), kid, v)
    ensures Joinable(parent, c, t, newitem, d, u, t[parent] + [newitem], newitem.data, memory.freed)
    ensures Shape(parent, c, t) && OtherLists(parent, t[parent], t) && ChildList(parent, t[parent])
    ensures newitem !in t && newitem !in t[parent] && OwnsItself(newitem.data)
    ensures v.Keys <= t.Keys && rest.Keys <= t.Keys
    ensures Members(t[parent]) <= {parent, newitem} + Members(t[parent])
    ensures forall k | k in t[parent] :: k in Members(t[parent])
    ensures forall k | k in t[parent] + [newitem] :: k in Members(t[parent] + [newitem])
  {
    hide Separate, Reached, Strangers, Matches, Live, ChildList, Joinable, Severable, Disposable, OtherLists, FreeOrder;
    SameLength(parent, c, t);
    ReadyToJoin(parent, c, t, newitem, d, u, memory.freed);
    OthersOf(parent, t);
    TreeIsShape(parent, c, t);
    i, v, rest, kid := FirstNamed(t[parent], Some(name.text)), map[], t, c;
    if i < |c.kids| {
      kid := c.kids[i];
      v, rest := Sever(parent, c, t, i);
      SeveredParts(parent, c, t, i, v, rest);
      ReadyToReplace(memory, parent, c, t, i, v, rest, newitem);
    }
    DisposableNothing(memory, t[parent], i, {parent, newitem} + Members(t[parent]), kid, v);
  }

  // cJSON_ReplaceItemInObject: the new item takes the name and the place of the first member of that name.
  method ReplaceMember(memory: Memory, parent: Node, name: StringBlock, newitem: Node, ghost members: seq<Member>,
                       ghost x: Json, ghost c: Content, ghost t: Forest, ghost d: Content, ghost u: Forest)
    returns (ghost e: Content, ghost w: Forest)
    requires Represents(parent, Object(members), c, t) && Represents(newitem, x, d, u)
    requires t.Keys !! u.Keys && Strangers(t, u) && Live(t, memory.freed) && Live(u, memory.freed)
    requires name !in memory.freed
    modifies memory, parent`child, t[parent]`next, t[parent]`prev, newitem`next, newitem`prev, newitem`data
    ensures var i := JsonEdits.FirstMember(members, name.text);
            && Represents(parent, Object(Updated(members, i, Member(name.text, x))), e, w) && Live(w, memory.freed)
            && (if i < |members| then u.Keys <= w.Keys && newitem.data.name != null && fresh(newitem.data.name)
                else w == t && newitem.data == old(newitem.data))
            && memory.freed == old(memory.freed) + old(FreedChild(parent, c, t, i))
    ensures w.Keys <= t.Keys + u.Keys && newitem.data == old(newitem.data).(name := newitem.data.name)
    ensures forall m | m in t :: m in w <==> m !in memory.freed
  {
    hide Linked, IsRoot, Separate, Reached, Strangers, Matches, Denotes, DenotesMembers, Live;
    FirstNode(parent, c, members, t, name.text);
    MembersDenoted(c, members);
    DenotesRenamed(d, x, Some(name.text));
    ghost var i;
    i, w := ReplaceNamed(memory, parent, name, newitem, c, t, d, u);
    e := Content(c.own, Updated(c.kids, i, Named(d, name.text)));
    MemberUpdated(c.kids, members, i, Named(d, name.text), Member(name.text, x));
  }

  lemma FirstNode(n: Node, c: Content, members: seq<Member>, t: Forest, s: Text)
    requires Matches(n, c, t) && Denotes(c, Object(members))
    ensures FirstNamed(t[n], Some(s)) == JsonEdits.FirstMember(members, s) <= |members|
  {
    JsonEdits.FindsFirstMember(t[n], c.kids, members, t, s);
  }

  lemma MemberUpdated(cs: seq<Content>, members: seq<Member>, i: nat, d: Content, m: Member)
    requires DenotesMembers(cs, members) && d.own.name == Some(m.name) && Denotes(d, m.value)
    ensures DenotesMembers(Updated(cs, i, d), Updated(members, i, m))
  {}
}
