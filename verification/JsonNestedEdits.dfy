/** The edits of an array or object at any place of a document: the whole stays one tree, of the edited value. */
module JsonNestedEdits {
  import opened CText
  import opened JsonTree
  import opened JsonHeap
  import opened JsonDelete
  import opened JsonLists
  import opened JsonObjects
  import opened JsonPaths
  import opened JsonTreeEdits
  import opened JsonValueEdits
  import JsonEdits

  // The whole of what stands for v, but for the tree of k at the end of the path.
  ghost predicate Gap(root: Node, v: Json, c: Content, path: seq<nat>, k: Node, z: Forest)
    reads z.Keys, k`next, k`prev, k`data
  {
    && Denotes(c, v) && Has(v, path) && Around(root, c, path, k, z)
    && Reaches(c, path) && TextOf(k.data.name) == ContentAt(c, path).own.name
  }

  // t is the tree s of k and the nodes around it.
  ghost predicate Split(t: Forest, k: Node, s: Forest, z: Forest) {
    s.Keys !! z.Keys && s.Keys + z.Keys == t.Keys && k in s && s[k] == t[k] && forall j | j in s[k] :: j in s && j != k
  }

  // What freeing child i of the node at the path frees, in order.
  ghost function FreedBelow(root: Node, v: Json, c: Content, t: Forest, path: seq<nat>, k: Node, x: Json, i: nat)
    : seq<object>
    requires Document(root, v, c, t, path, k, x)
    reads t.Keys
  {
    FreedChild(k, ContentAt(c, path), t, i)
  }

  lemma Enter(root: Node, v: Json, c: Content, t: Forest, path: seq<nat>, k: Node, x: Json)
    returns (d: Content, s: Forest, z: Forest)
    requires Document(root, v, c, t, path, k, x)
    ensures Represents(k, x, d, s) && Matches(k, d, s) && Gap(root, v, c, path, k, z)
    ensures Split(t, k, s, z) && Strangers(s, z)
    ensures forall i: nat :: FreedChild(k, d, s, i) == FreedBelow(root, v, c, t, path, k, x, i)
  {
    hide Linked, Separate, Reached, Strangers, Around, FreeOrder;
    d := ContentAt(c, path);
    s, z := Focus(root, c, t, path);
    OwnHeld(k, d, s);
    OwnHeld(k, d, t);
    TopsList(k, d, s);
    SameLength(k, d, s);
    forall i: nat ensures FreedChild(k, d, s, i) == FreedBelow(root, v, c, t, path, k, x, i) {
      if i < |d.kids| {
        FreeOrderOfOne(s[k][i], d.kids[i], s);
        FreeOrderOfOne(t[k][i], d.kids[i], t);
        FreeOrderWithin([t[k][i]], [d.kids[i]], t, s);
      }
    }
  }

  lemma TopsList(k: Node, d: Content, s: Forest)
    requires Tree(k, d, s)
    ensures forall j | j in s[k] :: j in s && j != k
  {}

  // What the node at the path has become is what the whole has become.
  lemma Leave(root: Node, v: Json, c: Content, path: seq<nat>, k: Node, z: Forest, x: Json, d: Content, s: Forest)
    returns (e: Content, w: Forest)
    requires Gap(root, v, c, path, k, z) && Represents(k, x, d, s) && z.Keys !! s.Keys && Strangers(z, s)
    ensures w == z + s && Became(root, v, e, w, path, k, x)
  {
    hide Around, Linked, Separate, Strangers, Reached;
    e, w := ContentEdited(c, path, d), z + s;
    OwnHeld(k, d, s);
    DenotesEdited(c, v, path, d, x);
    EditedRead(v, path, x);
    PutBack(root, c, path, k, z, d, s);
  }

  lemma StillApart(s: Forest, z: Forest, t: Forest, u: Forest, w: Forest)
    requires Strangers(s, z) && Strangers(t, u) && z.Keys <= t.Keys && w.Keys <= s.Keys + u.Keys
    ensures Strangers(z, w)
  {
    forall m, n | m in z && n in w ensures ShareNothing(m.data, n.data) {
      if n in s.Keys {
        assert ShareNothing(n.data, m.data);
      } else {
        assert m in t && n in u.Keys;
      }
    }
  }

  lemma PartApart(t: Forest, s: Forest, u: Forest)
    requires Strangers(t, u) && s.Keys <= t.Keys
    ensures Strangers(s, u)
  {
    assert forall m | m in s.Keys :: m in t;
  }

  lemma TopIn(n: Node, v: Json, c: Content, t: Forest)
    requires Represents(n, v, c, t)
    ensures n in t
  {}

  // Freeing a child of k spares what is around the tree of k.
  lemma AroundStaysLive(freed: seq<object>, k: Node, d: Content, i: nat, t: Forest, s: Forest, z: Forest)
    requires Live(t, freed) && Matches(k, d, s) && s.Keys !! z.Keys && Strangers(s, z) && z.Keys <= t.Keys
    ensures Live(z, freed + FreedChild(k, d, s, i))
  {
    hide FreeOrder, Strangers;
    if i < |d.kids| {
      StaysLive(freed, s[k][i], d.kids[i], t, s, z);
    } else {
      LivePart(t, z, freed);
      assert freed + [] == freed;
    }
  }

  lemma LivePart(t: Forest, s: Forest, freed: seq<object>)
    requires Live(t, freed) && s.Keys <= t.Keys
    ensures Live(s, freed)
  {
    assert forall m | m in s.Keys :: m in t;
  }

  // Nothing of the whole has been freed, and what is no longer in it has.
  lemma AllKeptOrFreed(freed: seq<object>, t: Forest, s: Forest, z: Forest, s0: Forest)
    requires Live(s0, freed) && Live(z, freed) && s.Keys + z.Keys == t.Keys && s.Keys !! z.Keys && z.Keys !! s0.Keys
    requires forall m | m in s :: m in s0 <==> m !in freed
    ensures Live(z + s0, freed) && forall m | m in t :: m in z + s0 <==> m !in freed
  {
    LiveTogether(freed, z, s0, z + s0);
    LiveNodes(z, freed);
    forall m | m in t ensures m in z + s0 <==> m !in freed {
      assert m in s.Keys || m in z.Keys;
    }
  }

  // Inserting an item into an array anywhere in a document.
  method InsertBelow(parent: Node, which: int, newitem: Node, ghost root: Node, ghost path: seq<nat>,
                     ghost items: seq<Json>, ghost v: Json, ghost x: Json,
                     ghost c: Content, ghost t: Forest, ghost d: Content, ghost u: Forest)
    returns (ghost e: Content, ghost w: Forest)
    requires Represents(newitem, x, d, u) && t.Keys !! u.Keys && Strangers(t, u)
    requires Document(root, v, c, t, path, parent, Array(items))
    requires Index(which) >= |t[parent]| ==> newitem.next == null && (t[parent] == [] ==> newitem.prev == null)
    modifies parent`child, t[parent]`next, t[parent]`prev, newitem`next, newitem`prev
    ensures Became(root, v, e, w, path, parent, Array(Inserted(items, Index(which), x)))
    ensures w.Keys == t.Keys + u.Keys
  {
    hide Represents, Document, FreedBelow, Gap, Strangers, Edited, Has, Became, Inserted, FreedChild, Matches;
    ghost var d0, s, z := Enter(root, v, c, t, path, parent, Array(items));
    TopIn(newitem, x, d, u);
    PartApart(t, s, u);
    ghost var e0, s0 := JsonValueEdits.InsertItem(parent, which, newitem, items, x, d0, s, d, u);
    StillApart(s, z, t, u, s0);
    e, w := Leave(root, v, c, path, parent, z, Array(Inserted(items, Index(which), x)), e0, s0);
  }

  method DetachBelow(parent: Node, which: int, ghost root: Node, ghost path: seq<nat>, ghost items: seq<Json>,
                     ghost v: Json, ghost c: Content, ghost t: Forest)
    returns (k: Node?, ghost d: Content, ghost u: Forest, ghost e: Content, ghost w: Forest)
    requires Document(root, v, c, t, path, parent, Array(items))
    modifies parent`child, t[parent]`next, t[parent]`prev
    ensures (k == null <==> Index(which) >= |items|) && (k == null ==> w.Keys == t.Keys)
    ensures Became(root, v, e, w, path, parent, Array(Removed(items, Index(which))))
    ensures k != null ==> Represents(k, items[Index(which)], d, u) && k.next == null && k.prev == null
    ensures k != null ==> u.Keys !! w.Keys && u.Keys + w.Keys == t.Keys && Strangers(u, w)
  {
    hide Represents, Document, FreedBelow, Gap, Strangers, Edited, Has, Became, Removed;
    ghost var d0, s, z := Enter(root, v, c, t, path, parent, Array(items));
    ghost var e0, s0;
    k, d, u, e0, s0 := JsonValueEdits.DetachItem(parent, which, items, d0, s);
    StillApart(s, z, t, map[], s0);
    e, w := Leave(root, v, c, path, parent, z, Array(Removed(items, Index(which))), e0, s0);
    if k != null {
      StillApart(s, z, t, map[], u);
      NotIn(z, s0, u);
    }
  }

  lemma NotIn(z: Forest, s: Forest, u: Forest)
    requires Strangers(z, u) && Strangers(u, s)
    ensures Strangers(u, z + s)
  {
    forall m, n | m in u && n in z + s ensures ShareNothing(m.data, n.data) {
      assert n in z ==> ShareNothing(n.data, m.data);
      assert n in s ==> ShareNothing(m.data, n.data);
    }
  }

  method DeleteBelow(memory: Memory, parent: Node, which: int, ghost root: Node, ghost path: seq<nat>,
                     ghost items: seq<Json>, ghost v: Json, ghost c: Content, ghost t: Forest)
    returns (ghost e: Content, ghost w: Forest)
    requires Live(t, memory.freed)
    requires Document(root, v, c, t, path, parent, Array(items))
    modifies memory, parent`child, t[parent]`next, t[parent]`prev
    ensures Became(root, v, e, w, path, parent, Array(Removed(items, Index(which))))
    ensures memory.freed == old(memory.freed) + old(FreedBelow(root, v, c, t, path, parent, Array(items), Index(which)))
    ensures Live(w, memory.freed) && w.Keys <= t.Keys && forall m | m in t :: m in w <==> m !in memory.freed
  {
    hide Represents, Document, FreedBelow, Gap, Strangers, Edited, Has, Became, Removed, Live, FreedChild, Matches;
    ghost var d0, s, z := Enter(root, v, c, t, path, parent, Array(items));
    LivePart(t, s, memory.freed);
    AroundStaysLive(memory.freed, parent, d0, Index(which), t, s, z);
    ghost var e0, s0 := JsonValueEdits.DeleteItem(memory, parent, which, items, d0, s);
    StillApart(s, z, t, map[], s0);
    AllKeptOrFreed(memory.freed, t, s, z, s0);
    e, w := Leave(root, v, c, path, parent, z, Array(Removed(items, Index(which))), e0, s0);
  }

  method ReplaceBelow(memory: Memory, parent: Node, which: int, newitem: Node, ghost root: Node, ghost path: seq<nat>,
                      ghost items: seq<Json>, ghost v: Json, ghost x: Json,
                      ghost c: Content, ghost t: Forest, ghost d: Content, ghost u: Forest)
    returns (ghost e: Content, ghost w: Forest)
    requires Represents(newitem, x, d, u) && t.Keys !! u.Keys && Strangers(t, u)
    requires Document(root, v, c, t, path, parent, Array(items))
    requires Live(t, memory.freed) && Live(u, memory.freed)
    modifies memory, parent`child, t[parent]`next, t[parent]`prev, newitem`next, newitem`prev
    ensures Became(root, v, e, w, path, parent, Array(Updated(items, Index(which), x)))
    ensures memory.freed == old(memory.freed) + old(FreedBelow(root, v, c, t, path, parent, Array(items), Index(which)))
    ensures Live(w, memory.freed) && w.Keys <= t.Keys + u.Keys && (Index(which) < |items| ==> u.Keys <= w.Keys)
    ensures forall m | m in t :: m in w <==> m !in memory.freed
  {
    hide Represents, Document, FreedBelow, Gap, Strangers, Edited, Has, Became, Updated, Live, FreedChild, Matches;
    ghost var d0, s, z := Enter(root, v, c, t, path, parent, Array(items));
    TopIn(newitem, x, d, u);
    PartApart(t, s, u);
    LivePart(t, s, memory.freed);
    AroundStaysLive(memory.freed, parent, d0, Index(which), t, s, z);
    ghost var e0, s0 := JsonValueEdits.ReplaceItem(memory, parent, which, newitem, items, x, d0, s, d, u);
    StillApart(s, z, t, u, s0);
    AllKeptOrFreed(memory.freed, t, s, z, s0);
    e, w := Leave(root, v, c, path, parent, z, Array(Updated(items, Index(which), x)), e0, s0);
  }

  // Adding a member to an object anywhere in a document.
  method AddMemberBelow(memory: Memory, parent: Node, name: StringBlock, item: Node, ghost root: Node,
                        ghost path: seq<nat>, ghost members: seq<Member>, ghost v: Json, ghost x: Json,
                        ghost c: Content, ghost t: Forest, ghost d: Content, ghost u: Forest)
    returns (ghost e: Content, ghost w: Forest)
    requires Represents(item, x, d, u) && t.Keys !! u.Keys && Strangers(t, u)
    requires Document(root, v, c, t, path, parent, Object(members))
    requires Live(t, memory.freed) && Live(u, memory.freed)
    requires item.next == null && (t[parent] == [] ==> item.prev == null)
    requires name !in memory.freed && name != item.data.name
    modifies memory, parent`child, t[parent]`next, item`prev, item`data
    ensures Became(root, v, e, w, path, parent, Object(members + [Member(name.text, x)]))
    ensures w.Keys == t.Keys + u.Keys && Live(w, memory.freed)
    ensures memory.freed == old(memory.freed) + NameDropped(old(item.data))
  {
    hide *;
    ghost var was, now := item.data, memory.freed + NameDropped(item.data);
    ghost var d0, s, z :=
      ReadyToName(root, v, c, t, path, parent, Object(members), item, x, d, u, memory.freed, now, 0);
    ghost var e0, s0 := JsonValueEdits.AddMember(memory, parent, name, item, members, x, d0, s, d, u);
    NewNameElsewhere(z, item.data.name);
    ghost var y := Object(members + [Member(name.text, x)]);
    e, w := LeaveNamed(root, v, c, path, parent, s, z, item, was, u, now, y, e0, s0);
  }

  lemma ReadyToName(root: Node, v: Json, c: Content, t: Forest, path: seq<nat>, k: Node, y: Json, item: Node, x: Json,
                    d: Content, u: Forest, freed: seq<object>, now: seq<object>, i: nat)
    returns (d0: Content, s: Forest, z: Forest)
    requires Document(root, v, c, t, path, k, y) && Represents(item, x, d, u) && t.Keys !! u.Keys && Strangers(t, u)
    requires Live(t, freed)
    requires now == freed + NameDropped(item.data) || now == freed + FreedBelow(root, v, c, t, path, k, y, i)
    ensures Matches(k, d0, s) && FreedChild(k, d0, s, i) == FreedBelow(root, v, c, t, path, k, y, i)
    ensures Represents(k, y, d0, s) && Strangers(s, u) && Live(s, freed)
    ensures s.Keys !! z.Keys && s.Keys + z.Keys == t.Keys && k in s && k !in z
    ensures s[k] == t[k] && forall j | j in s[k] :: j in s && j !in z && j != k
    ensures s.Keys !! u.Keys && z.Keys !! u.Keys && item in u && item !in z && item != k
    ensures Waiting(root, v, c, path, k, s, z, item, item.data, u, now)
  {
    hide Represents, Document, FreedBelow, Gap, Strangers, Edited, Has, Live, FreedChild, Matches;
    hide Beside, NameDropped, StrangerTo, Strings;
    d0, s, z := Enter(root, v, c, t, path, k, y);
    TopIn(item, x, d, u);
    NewBeside(t, s, z, item, u, freed);
    LiveBeside(freed, z, item.data);
    AroundStaysLive(freed, k, d0, i, t, s, z);
  }

  // What does not change while the item, which had the fields was, joins the tree s of k under a new name.
  ghost predicate Waiting(root: Node, v: Json, c: Content, path: seq<nat>, k: Node, s: Forest, z: Forest,
                          item: Node, was: Data, u: Forest, now: seq<object>)
    reads z.Keys, s.Keys`data, (u.Keys - {item})`data, k`next, k`prev, k`data
  {
    Gap(root, v, c, path, k, z) && Strangers(s, z) && Beside(z, item, was, u) && Live(z, now) && item in u
  }

  lemma LeaveNamed(root: Node, v: Json, c: Content, path: seq<nat>, k: Node, s: Forest, z: Forest,
                   item: Node, was: Data, u: Forest, now: seq<object>, x: Json, d: Content, s0: Forest)
    returns (e: Content, w: Forest)
    requires Waiting(root, v, c, path, k, s, z, item, was, u, now) && Represents(k, x, d, s0) && Live(s0, now)
    requires z.Keys !! s.Keys && z.Keys !! u.Keys && s0.Keys <= s.Keys + u.Keys
    requires || s0.Keys <= s.Keys
             || (item.data.name != null && item.data == was.(name := item.data.name)
                 && forall m | m in z :: item.data.name !in Strings(m.data))
    ensures w == z + s0 && Became(root, v, e, w, path, k, x) && Live(w, now) && Live(z, now)
  {
    hide Represents, Gap, Strangers, Became, Live, Beside, Strings;
    if s0.Keys <= s.Keys {
      StillApart(s, z, z, map[], s0);
    } else {
      StillBeside(s, z, item, was, u, s0);
    }
    LiveTogether(now, z, s0, z + s0);
    e, w := Leave(root, v, c, path, k, z, x, d, s0);
  }

  // Nothing of the tree u of item, which has the fields d, is in z.
  ghost predicate Beside(z: Forest, item: Node, d: Data, u: Forest)
    reads z.Keys`data, (u.Keys - {item})`data
  {
    Strangers(z, Without(item, u)) && StrangerTo(d, z)
  }

  lemma NewBeside(t: Forest, s: Forest, z: Forest, item: Node, u: Forest, freed: seq<object>)
    requires s.Keys + z.Keys == t.Keys && item in u && Strangers(t, u) && Live(t, freed)
    ensures Strangers(s, u) && Live(s, freed) && Live(z, freed) && Beside(z, item, item.data, u)
    ensures StrangerTo(item.data, z)
  {
    hide Strangers, Live, StrangerTo;
    PartApart(t, s, u);
    PartApart(t, z, u);
    StrangersSplit(z, u, item);
    LivePart(t, s, freed);
    LivePart(t, z, freed);
  }

  lemma StillBeside(s: Forest, z: Forest, item: Node, was: Data, u: Forest, s0: Forest)
    requires Strangers(s, z) && Beside(z, item, was, u) && item in u && z.Keys !! u.Keys && s0.Keys <= s.Keys + u.Keys
    requires item.data.name != null && item.data == was.(name := item.data.name)
    requires forall k | k in z :: item.data.name !in Strings(k.data)
    ensures Strangers(z, s0)
  {
    StillStrangers(z, u, item, was);
    StillApart(s, z, z, u, s0);
  }

  twostate lemma NewNameElsewhere(z: Forest, new name: StringBlock)
    requires fresh(name) && forall k | k in z :: allocated(k) && old(allocated(k)) && k.data == old(k.data)
    ensures forall k | k in z :: name !in Strings(k.data)
  {}

  method DetachMemberBelow(parent: Node, name: StringBlock, ghost root: Node, ghost path: seq<nat>,
                           ghost members: seq<Member>, ghost v: Json, ghost c: Content, ghost t: Forest)
    returns (k: Node?, ghost d: Content, ghost u: Forest, ghost e: Content, ghost w: Forest)
    requires Document(root, v, c, t, path, parent, Object(members))
    modifies parent`child, t[parent]`next, t[parent]`prev
    ensures var i := JsonEdits.FirstMember(members, name.text);
            && Became(root, v, e, w, path, parent, Object(Removed(members, i)))
            && (k == null <==> i >= |members|) && (k == null ==> w.Keys == t.Keys)
            && (k != null ==> Represents(k, members[i].value, d, u) && k.next == null && k.prev == null)
            && (k != null ==> u.Keys !! w.Keys && u.Keys + w.Keys == t.Keys && Strangers(u, w))
  {
    hide Represents, Document, FreedBelow, Gap, Strangers, Edited, Has, Became, Removed, FreedChild, Matches;
    ghost var d0, s, z := Enter(root, v, c, t, path, parent, Object(members));
    ghost var e0, s0;
    k, d, u, e0, s0 := JsonValueEdits.DetachMember(parent, name, members, d0, s);
    StillApart(s, z, t, map[], s0);
    ghost var i := JsonEdits.FirstMember(members, name.text);
    e, w := Leave(root, v, c, path, parent, z, Object(Removed(members, i)), e0, s0);
    if k != null {
      StillApart(s, z, t, map[], u);
      NotIn(z, s0, u);
    }
  }

  method DeleteMemberBelow(memory: Memory, parent: Node, name: StringBlock, ghost root: Node, ghost path: seq<nat>,
                           ghost members: seq<Member>, ghost v: Json, ghost c: Content, ghost t: Forest)
    returns (ghost e: Content, ghost w: Forest)
    requires Live(t, memory.freed)
    requires Document(root, v, c, t, path, parent, Object(members))
    modifies memory, parent`child, t[parent]`next, t[parent]`prev
    ensures var i := JsonEdits.FirstMember(members, name.text);
            && Became(root, v, e, w, path, parent, Object(Removed(members, i)))
            && memory.freed == old(memory.freed) + old(FreedBelow(root, v, c, t, path, parent, Object(members), i))
    ensures Live(w, memory.freed) && w.Keys <= t.Keys && forall m | m in t :: m in w <==> m !in memory.freed
  {
    hide Represents, Document, FreedBelow, Gap, Strangers, Edited, Has, Became, Removed, Live, FreedChild, Matches;
    ghost var i := JsonEdits.FirstMember(members, name.text);
    ghost var d0, s, z := Enter(root, v, c, t, path, parent, Object(members));
    LivePart(t, s, memory.freed);
    AroundStaysLive(memory.freed, parent, d0, i, t, s, z);
    ghost var e0, s0 := JsonValueEdits.DeleteMember(memory, parent, name, members, d0, s);
    StillApart(s, z, t, map[], s0);
    AllKeptOrFreed(memory.freed, t, s, z, s0);
    e, w := Leave(root, v, c, path, parent, z, Object(Removed(members, i)), e0, s0);
  }

  method ReplaceMemberBelow(memory: Memory, parent: Node, name: StringBlock, newitem: Node, ghost root: Node,
                            ghost path: seq<nat>, ghost members: seq<Member>, ghost v: Json, ghost x: Json,
                            ghost c: Content, ghost t: Forest, ghost d: Content, ghost u: Forest)
    returns (ghost e: Content, ghost w: Forest)
    requires Represents(newitem, x, d, u) && t.Keys !! u.Keys && Strangers(t, u)
    requires Document(root, v, c, t, path, parent, Object(members))
    requires Live(t, memory.freed) && Live(u, memory.freed) && name !in memory.freed
    modifies memory, parent`child, t[parent]`next, t[parent]`prev, newitem`next, newitem`prev, newitem`data
    ensures var i := JsonEdits.FirstMember(members, name.text);
            && Became(root, v, e, w, path, parent, Object(Updated(members, i, Member(name.text, x))))
            && memory.freed == old(memory.freed) + old(FreedBelow(root, v, c, t, path, parent, Object(members), i))
            && (i < |members| ==> u.Keys <= w.Keys)
    ensures Live(w, memory.freed) && w.Keys <= t.Keys + u.Keys && forall m | m in t :: m in w <==> m !in memory.freed
  {
    hide *;
    ghost var i, was := JsonEdits.FirstMember(members, name.text), newitem.data;
    ghost var now := memory.freed + FreedBelow(root, v, c, t, path, parent, Object(members), i);
    ghost var d0, s, z :=
      ReadyToName(root, v, c, t, path, parent, Object(members), newitem, x, d, u, memory.freed, now, i);
    ghost var e0, s0 := JsonValueEdits.ReplaceMember(memory, parent, name, newitem, members, x, d0, s, d, u);
    if i < |members| {
      NewNameElsewhere(z, newitem.data.name);
    }
    ghost var y := Object(Updated(members, i, Member(name.text, x)));
    e, w := LeaveNamed(root, v, c, path, parent, s, z, newitem, was, u, now, y, e0, s0);
    AllKeptOrFreed(now, t, s, z, s0);
  }

  lemma ChildAt(root: Node, v: Json, c: Content, t: Forest, path: seq<nat>, k: Node, x: Json, i: nat)
    requires Document(root, v, c, t, path, k, x) && Has(x, [i])
    ensures k in t && i < |t[k]| && Document(root, v, c, t, path + [i], t[k][i], ValueAt(x, [i]))
  {
    hide Linked, Separate, Reached;
    assert [i][1..] == [];
    assert x.Array? || x.Object?;
    ListAt(root, v, c, t, path, k, x);
    OneLevelMore(v, path, i);
    OneNodeMore(root, c, t, path, i);
  }

  lemma ListAt(root: Node, v: Json, c: Content, t: Forest, path: seq<nat>, k: Node, x: Json)
    requires Document(root, v, c, t, path, k, x) && (x.Array? || x.Object?)
    ensures k in t && ChildList(k, t[k]) && |t[k]| == if x.Array? then |x.items| else |x.members|
    ensures x.Object? ==> forall s :: FirstNamed(t[k], Some(s)) == JsonEdits.FirstMember(x.members, s)
  {
    hide Separate, Reached, FirstNamed;
    SameLength(k, ContentAt(c, path), t);
    if x.Array? {
      ItemsDenoted(ContentAt(c, path), x.items);
    } else {
      MembersDenoted(ContentAt(c, path), x.members);
    }
    if x.Object? {
      forall s ensures FirstNamed(t[k], Some(s)) == JsonEdits.FirstMember(x.members, s) {
        FirstNode(k, ContentAt(c, path), x.members, t, s);
      }
    }
  }

  // cJSON_GetArrayItem from any array of a document: where it leads, another edit can be made.
  method GetItemBelow(parent: Node, item: int, ghost root: Node, ghost path: seq<nat>, ghost items: seq<Json>,
                      ghost v: Json, ghost c: Content, ghost t: Forest)
    returns (k: Node?)
    requires Document(root, v, c, t, path, parent, Array(items))
    ensures k == null <==> Index(item) >= |items|
    ensures k != null ==> Document(root, v, c, t, path + [Index(item)], k, items[Index(item)])
  {
    hide Document, ChildList;
    ListAt(root, v, c, t, path, parent, Array(items));
    k := GetArrayItem(parent, item, t[parent]);
    if k != null {
      ChildAt(root, v, c, t, path, parent, Array(items), Index(item));
    }
  }

  // cJSON_GetObjectItem from any object of a document.
  method GetMemberBelow(parent: Node, name: StringBlock, ghost root: Node, ghost path: seq<nat>,
                        ghost members: seq<Member>, ghost v: Json, ghost c: Content, ghost t: Forest)
    returns (k: Node?)
    requires Document(root, v, c, t, path, parent, Object(members))
    ensures var i := JsonEdits.FirstMember(members, name.text);
            && (k == null <==> i >= |members|)
            && (k != null ==> Document(root, v, c, t, path + [i], k, members[i].value))
  {
    hide Document, ChildList;
    ghost var i := JsonEdits.FirstMember(members, name.text);
    ListAt(root, v, c, t, path, parent, Object(members));
    k := GetObjectItem(parent, name, t[parent]);
    if k != null {
      ChildAt(root, v, c, t, path, parent, Object(members), i);
    }
  }
}
