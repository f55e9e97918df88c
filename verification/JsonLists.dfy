/** The child lists of arrays and objects: lookups and in-place edits, as operations on the sequence of children. */
module JsonLists {
  import opened CText
  import opened JsonHeap
  import opened JsonDelete

  // Positions at or below zero mean the first item.
  function Index(which: int): nat {
    if which > 0 then which else 0
  }

  function Inserted<T>(ks: seq<T>, i: nat, k: T): seq<T> {
    if i < |ks| then ks[..i] + [k] + ks[i..] else ks + [k]
  }

  function Removed<T>(ks: seq<T>, i: nat): seq<T> {
    if i < |ks| then ks[..i] + ks[i + 1..] else ks
  }

  lemma RemovedAt<T>(ks: seq<T>, i: nat, m: nat)
    requires m < |Removed(ks, i)|
    ensures |Removed(ks, i)| == (if i < |ks| then |ks| - 1 else |ks|)
    ensures var k := if m < i then m else m + 1;
            k < |ks| && Removed(ks, i)[m] == ks[k]
  {}

  function Updated<T>(ks: seq<T>, i: nat, k: T): seq<T> {
    if i < |ks| then ks[i := k] else ks
  }

  // Where an item goes in, which one goes out, and which one is replaced, for any position given to the code: what is
  // below zero counts as zero, and behind the last item insertion appends and the others do nothing.
  lemma Places<T>(ks: seq<T>, which: int, k: T)
    ensures var i := if which <= 0 then 0 else if which < |ks| then which else |ks|;
            var (a, b, c) := (Inserted(ks, Index(which), k), Removed(ks, Index(which)), Updated(ks, Index(which), k));
            && |a| == |ks| + 1 && a[i] == k && a[..i] == ks[..i] && a[i + 1..] == ks[i..]
            && (i == |ks| ==> b == ks && c == ks)
            && (i < |ks| ==> |b| + 1 == |c| == |ks| && b[..i] == c[..i] == ks[..i] && c[i] == k
                             && b[i..] == c[i + 1..] == ks[i + 1..])
  {}

  ghost function Child(ks: seq<Node>, i: nat): Node? {
    if i < |ks| then ks[i] else null
  }

  lemma AllDistinct(ks: seq<Node>)
    requires Siblings(ks)
    ensures forall i, j | 0 <= i < j < |ks| :: ks[i] != ks[j]
  {
    forall i, j | 0 <= i < j < |ks| ensures ks[i] != ks[j] {
      SiblingsDistinct(ks, i, j);
    }
  }

  method GetArraySize(parent: Node, ghost ks: seq<Node>) returns (i: nat)
    requires ChildList(parent, ks)
    ensures i == |ks|
  {
    var c := parent.child;
    i := 0;
    while c != null
      invariant i <= |ks| && c == Child(ks, i)
      decreases |ks| - i
    {
      assert ks[i].next == Child(ks, i + 1);
      i, c := i + 1, c.next;
    }
  }

  method GetArrayItem(parent: Node, item: int, ghost ks: seq<Node>) returns (c: Node?)
    requires ChildList(parent, ks)
    ensures c == Child(ks, Index(item))
  {
    c := parent.child;
    var which := item;
    ghost var i := 0;
    while c != null && which > 0
      invariant i <= |ks| && c == Child(ks, i)
      invariant if i < |ks| then which == item - i && (i == 0 || which >= 0) else Index(item) >= |ks|
      decreases |ks| - i
    {
      assert ks[i].next == Child(ks, i + 1);
      i, which, c := i + 1, which - 1, c.next;
    }
  }

  // The new item becomes the last child.
  method AddItemToArray(parent: Node, item: Node?, ghost ks: seq<Node>)
    requires ChildList(parent, ks)
    requires item != null ==> item !in ks && item.next == null && (ks == [] ==> item.prev == null)
    modifies parent`child, ks`next
    modifies (if item == null then {} else {item})`prev
    ensures ChildList(parent, if item == null then ks else ks + [item])
  {
    if item == null {
      return;
    }
    var c := parent.child;
    if c == null {
      parent.child := item;
    } else {
      ghost var i := 0;
      while c.next != null
        invariant i < |ks| && c == ks[i]
        decreases |ks| - i
      {
        assert ks[i].next == Child(ks, i + 1);
        i, c := i + 1, c.next;
      }
      assert ks[i].next == Child(ks, i + 1);
      AllDistinct(ks);
      c.next, item.prev := item, c;
    }
    SiblingsOfExtended(ks, item);
  }

  ghost function Previous(ks: seq<Node>, i: nat): Node? {
    if 0 < i <= |ks| then ks[i - 1] else null
  }

  // The neighbours of child i point past it.
  lemma SiblingsOfRemoved(ks: seq<Node>, i: nat)
    requires i < |ks|
    requires forall m {:trigger ks[m].next} | 0 <= m < |ks| && m != i ::
               ks[m].next == Child(ks, if m + 1 == i then i + 1 else m + 1)
    requires forall m {:trigger ks[m].prev} | 0 <= m < |ks| && m != i ::
               ks[m].prev == Previous(ks, if m == i + 1 then i else m)
    ensures Siblings(Removed(ks, i))
  {
    var js := Removed(ks, i);
    forall m {:trigger js[m].next} | 0 <= m < |js|
      ensures js[m].next == if m + 1 < |js| then js[m + 1] else null
      ensures js[m].prev == if m > 0 then js[m - 1] else null
    {
      assert js[m] == ks[if m < i then m else m + 1];
    }
  }

  method DetachItemFromArray(parent: Node, which: int, ghost ks: seq<Node>) returns (c: Node?)
    requires ChildList(parent, ks)
    modifies parent`child, ks`next, ks`prev
    ensures c == Child(ks, Index(which)) && ChildList(parent, Removed(ks, Index(which)))
    ensures c != null ==> c.next == null && c.prev == null
  {
    c := GetArrayItem(parent, which, ks);
    if c == null {
      return;
    }
    ghost var i := Index(which);
    AllDistinct(ks);
    assert ks[i].next == Child(ks, i + 1) && ks[i].prev == Previous(ks, i);
    if c.prev != null {
      c.prev.next := c.next;
    }
    if c.next != null {
      c.next.prev := c.prev;
    }
    if c == parent.child {
      parent.child := c.next;
    }
    c.prev, c.next := null, null;
    SiblingsOfRemoved(ks, i);
  }

  method InsertItemInArray(parent: Node, which: int, newitem: Node, ghost ks: seq<Node>)
    requires ChildList(parent, ks) && newitem !in ks
    requires Index(which) >= |ks| ==> newitem.next == null && (ks == [] ==> newitem.prev == null)
    modifies parent`child, ks`next, ks`prev, newitem`next, newitem`prev
    ensures ChildList(parent, Inserted(ks, Index(which), newitem))
  {
    var c := GetArrayItem(parent, which, ks);
    if c == null {
      AddItemToArray(parent, newitem, ks);
      return;
    }
    ghost var i := Index(which);
    AllDistinct(ks);
    assert ks[i].next == Child(ks, i + 1) && ks[i].prev == Previous(ks, i);
    newitem.next, newitem.prev, c.prev := c, c.prev, newitem;
    if c == parent.child {
      parent.child := newitem;
    } else {
      newitem.prev.next := newitem;
    }
    SiblingsOfInserted(ks, i, newitem);
  }

  // The neighbours at place i point at k, and k at them.
  lemma SiblingsOfInserted(ks: seq<Node>, i: nat, k: Node)
    requires i < |ks| && k.next == ks[i] && k.prev == Previous(ks, i)
    requires forall m {:trigger ks[m].next} | 0 <= m < |ks| ::
               ks[m].next == if m + 1 == i then k else Child(ks, m + 1)
    requires forall m {:trigger ks[m].prev} | 0 <= m < |ks| ::
               ks[m].prev == if m == i then k else Previous(ks, m)
    ensures Siblings(Inserted(ks, i, k))
  {
    var js := Inserted(ks, i, k);
    forall m {:trigger js[m].next} | 0 <= m < |js|
      ensures js[m].next == if m + 1 < |js| then js[m + 1] else null
      ensures js[m].prev == if m > 0 then js[m - 1] else null
    {
      assert js[m] == if m == i then k else ks[if m < i then m else m - 1];
    }
  }

  ghost function Members(ks: seq<Node>): set<Node> {
    set m | m in ks
  }

  // The forest of what k owns; the links of k to its own siblings do not matter.
  ghost predicate OwnedBelow(k: Node, t: Forest)
    reads t.Keys`child, t.Keys`data, (t.Keys - {k})`next
  {
    && (forall n, i {:trigger t[n][i]} | n in t && 0 <= i < |t[n]| :: t[n][i] in t && t[n][i] != k)
    && (forall n, i {:trigger t[n][i].next} | n in t && 0 <= i < |t[n]| ::
          t[n][i].next == if i + 1 < |t[n]| then t[n][i + 1] else null)
    && (forall n | n in t :: if n.data.isReference then t[n] == [] else n.child == Head(t[n]))
  }

  // Child i, if there is one, can be freed without freeing any other node at hand or anything twice.
  ghost predicate Disposable(memory: Memory, ks: seq<Node>, i: nat, others: set<Node>, c: Content, t: Forest)
    requires others >= Members(ks)
    reads memory, t.Keys`child, t.Keys`data, (if i < |ks| then t.Keys - {ks[i]} else {})`next
  {
    i < |ks| ==>
      && OwnedBelow(ks[i], t) && Matches(ks[i], c, t) && t.Keys !! others - {ks[i]}
      && NoDuplicates(memory.freed + FreeOrder(ks[i], c, t))
  }

  // What freeing the tree of child i gives back, none if there is no such child.
  ghost function FreedAt(ks: seq<Node>, i: nat, c: Content, t: Forest): seq<object>
    reads t.Keys`data
  {
    if i < |ks| && Matches(ks[i], c, t) then FreeOrder(ks[i], c, t) else []
  }

  lemma NothingFreed(ks: seq<Node>, i: nat, c: Content, t: Forest)
    requires i >= |ks|
    ensures FreedAt(ks, i, c, t) == []
  {}

  method Dispose(memory: Memory, k: Node, ghost ks: seq<Node>, ghost i: nat, ghost others: set<Node>,
                 ghost c: Content, ghost t: Forest)
    requires others >= Members(ks) && Disposable(memory, ks, i, others, c, t)
    requires i < |ks| && k == ks[i] && k.next == null
    modifies memory
    ensures memory.freed == old(memory.freed) + FreedAt(ks, i, c, t)
  {
    FreeOrderOfOne(k, c, t);
    Delete(memory, k, [k], [c], t);
  }

  method DeleteItemFromArray(memory: Memory, parent: Node, which: int,
                             ghost ks: seq<Node>, ghost c: Content, ghost t: Forest)
    requires ChildList(parent, ks)
    requires Disposable(memory, ks, Index(which), {parent} + Members(ks), c, t)
    modifies memory, parent`child, ks`next, ks`prev
    ensures ChildList(parent, Removed(ks, Index(which)))
    ensures memory.freed == old(memory.freed) + FreedAt(ks, Index(which), c, t)
  {
    hide Siblings, Matches, NoDuplicates, FreeOrder, FreedAt;
    assert forall x | x in ks :: x in Members(ks);
    var k := DetachItemFromArray(parent, which, ks);
    if k == null {
      NothingFreed(ks, Index(which), c, t);
      return;
    }
    Dispose(memory, k, ks, Index(which), {parent} + Members(ks), c, t);
  }

  method ReplaceItemInArray(memory: Memory, parent: Node, which: int, newitem: Node,
                            ghost ks: seq<Node>, ghost content: Content, ghost t: Forest)
    requires ChildList(parent, ks) && newitem !in ks
    requires Disposable(memory, ks, Index(which), {parent, newitem} + Members(ks), content, t)
    modifies memory, parent`child, ks`next, ks`prev, newitem`next, newitem`prev
    ensures ChildList(parent, Updated(ks, Index(which), newitem))
    ensures memory.freed == old(memory.freed) + FreedAt(ks, Index(which), content, t)
  {
    hide Siblings, Matches, NoDuplicates, FreeOrder, FreedAt;
    assert forall x | x in ks :: x in Members(ks);
    var c := GetArrayItem(parent, which, ks);
    if c == null {
      NothingFreed(ks, Index(which), content, t);
      return;
    }
    Supplant(parent, c, newitem, ks, Index(which));
    Dispose(memory, c, ks, Index(which), {parent, newitem} + Members(ks), content, t);
  }

  // The links of c pass to newitem.
  method Supplant(parent: Node, c: Node, newitem: Node, ghost ks: seq<Node>, ghost i: nat)
    requires ChildList(parent, ks) && newitem !in ks && i < |ks| && c == ks[i]
    modifies parent`child, ks`next, ks`prev, newitem`next, newitem`prev
    ensures ChildList(parent, ks[i := newitem]) && c.next == null && c.prev == null
  {
    AllDistinct(ks);
    assert ks[i].next == Child(ks, i + 1) && ks[i].prev == Previous(ks, i);
    newitem.next, newitem.prev := c.next, c.prev;
    if newitem.next != null {
      newitem.next.prev := newitem;
    }
    if c == parent.child {
      parent.child := newitem;
    } else {
      newitem.prev.next := newitem;
    }
    c.next, c.prev := null, null;
    SiblingsOfUpdated(ks, i, newitem);
  }

  // The neighbours of place i point at k, and k at them.
  lemma SiblingsOfUpdated(ks: seq<Node>, i: nat, k: Node)
    requires i < |ks| && k.next == Child(ks, i + 1) && k.prev == Previous(ks, i)
    requires forall m {:trigger ks[m].next} | 0 <= m < |ks| && m != i ::
               ks[m].next == if m + 1 == i then k else Child(ks, m + 1)
    requires forall m {:trigger ks[m].prev} | 0 <= m < |ks| && m != i ::
               ks[m].prev == if m == i + 1 then k else Previous(ks, m)
    ensures Siblings(ks[i := k])
  {
    var js := ks[i := k];
    forall m {:trigger js[m].next} | 0 <= m < |js|
      ensures js[m].next == if m + 1 < |js| then js[m + 1] else null
      ensures js[m].prev == if m > 0 then js[m - 1] else null
    {
      assert m != i ==> js[m] == ks[m];
    }
  }
}
