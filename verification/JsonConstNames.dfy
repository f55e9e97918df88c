/** Names marked constant: which strings deletion leaves behind, and which it should not have been given. */
module JsonConstNames {
  import opened CText
  import opened JsonTree
  import opened JsonHeap
  import opened JsonDelete
  import opened JsonDuplicate
  import opened JsonObjects
  import opened JsonOwnership
  import opened JsonValueEdits
  import opened JsonWalk

  // Some node of the tree has a name and is marked as having a constant one.
  ghost predicate ConstNamed(c: Content)
    decreases c
  {
    (c.own.nameIsConst && c.own.name.Some?) || SomeConstNamed(c.kids)
  }

  ghost predicate SomeConstNamed(cs: seq<Content>)
    decreases cs
  {
    exists i | 0 <= i < |cs| :: ConstNamed(cs[i])
  }

  lemma SomeConstStep(cs: seq<Content>)
    requires cs != []
    ensures SomeConstNamed(cs) <==> ConstNamed(cs[0]) || SomeConstNamed(cs[1..])
  {
    assert forall i | 1 <= i < |cs| :: cs[i] == cs[1..][i - 1];
  }

  predicate HasConstName(d: Data) {
    d.nameIsConst && d.name != null
  }

  lemma {:induction false} ConstNamedNodes(ks: seq<Node>, cs: seq<Content>, t: Forest)
    requires MatchList(ks, cs, t)
    ensures SomeConstNamed(cs) <==> exists n: Node :: n in FreeOrderAll(ks, cs, t) && HasConstName(n.data)
    decreases cs
  {
    hide SomeConstNamed, OwnStrings;
    if ks != [] {
      var k, c := ks[0], cs[0];
      assert Matches(k, c, t);
      ConstNamedNodes(t[k], c.kids, t);
      ConstNamedNodes(ks[1..], cs[1..], t);
      SomeConstStep(cs);
      assert HasConstName(k.data) <==> c.own.nameIsConst && c.own.name.Some?;
      if HasConstName(k.data) {
        NodeFreed(ks, cs, t, k);
      } else if n: Node :| n in FreeOrderAll(t[k], c.kids, t) && HasConstName(n.data) {
        NodeFreed(ks, cs, t, n);
      } else if n: Node :| n in FreeOrderAll(ks[1..], cs[1..], t) && HasConstName(n.data) {
        NodeFreed(ks, cs, t, n);
      } else {
        forall n: Node | n in FreeOrderAll(ks, cs, t) ensures !HasConstName(n.data) {
          NodeFreed(ks, cs, t, n);
        }
      }
    } else {
      NoneConstNamed();
    }
  }

  lemma NoneConstNamed()
    ensures !SomeConstNamed([])
  {}

  lemma NodeFreed(ks: seq<Node>, cs: seq<Content>, t: Forest, n: Node)
    requires ks != [] && MatchList(ks, cs, t)
    ensures Matches(ks[0], cs[0], t) && MatchList(t[ks[0]], cs[0].kids, t) && MatchList(ks[1..], cs[1..], t)
    ensures n in FreeOrderAll(ks, cs, t) <==>
              n == ks[0] || n in FreeOrderAll(t[ks[0]], cs[0].kids, t) || n in FreeOrderAll(ks[1..], cs[1..], t)
  {
    hide OwnStrings;
    var k, c := ks[0], cs[0];
    var below, own, rest := FreeOrderAll(t[k], c.kids, t), OwnStrings(k.data), FreeOrderAll(ks[1..], cs[1..], t);
    NotAString(k.data, n);
    InEither(below + own + [k], rest, n);
    InEither(below + own, [k], n);
    InEither(below, own, n);
  }

  lemma NotAString(d: Data, n: Node)
    ensures n !in OwnStrings(d)
  {}

  lemma InEither(a: seq<object>, b: seq<object>, o: object)
    ensures o in a + b <==> o in a || o in b
  {}

  // The mark is copied, with the name.
  lemma {:induction false} CopiedConstNamed(c: Content)
    ensures ConstNamed(Copied(c)) == ConstNamed(c)
    decreases c
  {
    var d := Copied(c);
    forall i | 0 <= i < |c.kids| ensures ConstNamed(d.kids[i]) == ConstNamed(c.kids[i]) {
      CopiedConstNamed(c.kids[i]);
    }
  }

  // Deleting a tree frees every string of it but the names marked constant, so all of them if and only if there
  // is no such name.
  lemma StringsGivenBack(n: Node, c: Content, u: Forest, blocks: set<StringBlock>)
    requires Tree(n, c, u) && StringsAre(u, blocks)
    ensures forall b | b in blocks ::
              b !in FreeOrder(n, c, u) <==> exists m :: m in u && HasConstName(m.data) && m.data.name == b
    ensures (forall b | b in blocks :: b in FreeOrder(n, c, u)) <==> !ConstNamed(c)
  {
    hide FreeOrder, FreeOrderAll, Linked, Reached, Matches;
    forall b | b in blocks
      ensures b !in FreeOrder(n, c, u) <==> exists m :: m in u && HasConstName(m.data) && m.data.name == b
    {
      var k :| k in u && b in Strings(k.data);
      NameFreed(n, c, u, k);
      forall m | m in u && HasConstName(m.data) && m.data.name == b ensures b !in FreeOrder(n, c, u) {
        NameFreed(n, c, u, m);
      }
    }
    FreeOrderOfOne(n, c, u);
    ConstNamedNodes([n], [c], u);
    forall m: Node | m in FreeOrder(n, c, u) ensures m in u {
      FreesOwnParts(n, c, u, m);
    }
    forall m | m in u ensures m in FreeOrder(n, c, u) && (HasConstName(m.data) ==> m.data.name in blocks) {
      AllNodesFreed(n, c, u, m);
    }
    SomeConstStep([c]);
    NoneConstNamed();
    assert [c][1..] == [];
  }

  // A copy that is deleted again gives back all that cJSON_Duplicate allocated if and only if what was copied
  // holds no constant name.
  method CopyAndDelete(memory: Memory, item: Node, recurse: bool, ghost c: Content, ghost t: Forest)
    returns (newitem: Node, ghost u: Forest, ghost blocks: set<StringBlock>)
    requires Spans(t) && Matches(item, c, t) && Live(t, memory.freed)
    modifies memory
    ensures newitem in u && fresh(u.Keys) && fresh(blocks) && StringsAre(u, blocks)
    ensures OwnOf(newitem.data) == c.own.(isReference := false)
    ensures forall n | n in u :: n in memory.freed
    ensures (forall b | b in blocks :: b in memory.freed)
       <==> !(if recurse then ConstNamed(c) else c.own.nameIsConst && c.own.name.Some?)
    ensures forall b | b in blocks ::
              b !in memory.freed <==> exists m :: m in u && HasConstName(m.data) && m.data.name == b
  {
    hide Linked, IsRoot, Reached, Separate, FreeOrder, Spans, StringsAre, Live, NoDuplicates;
    newitem, u, blocks := Duplicate(item, recurse, c, t, memory.freed);
    ghost var d := if recurse then Copied(c) else Content(c.own.(isReference := false), []);
    CopiedConstNamed(c);
    FreshIsLive(u, blocks, memory.freed);
    StringsGivenBack(newitem, d, u, blocks);
    DeleteTree(memory, newitem, d, u);
  }

  lemma FreshIsLive(u: Forest, blocks: set<StringBlock>, freed: seq<object>)
    requires StringsAre(u, blocks) && (forall n | n in u :: n !in freed) && forall b | b in blocks :: b !in freed
    ensures Live(u, freed)
  {}

  // An instance: the copy of a null under a constant name leaves its copy of the name behind.
  method CopyOfConstNameIsLost() returns (memory: Memory, copy: Node)
    ensures fresh(memory) && fresh(copy) && copy in memory.freed
    ensures copy.data.name != null && fresh(copy.data.name) && copy.data.name !in memory.freed
  {
    memory := new Memory();
    var name := new StringBlock("k");
    var item := new Node();
    item.data := item.data.(kind := KindNull, nameIsConst := true, name := name);
    ghost var u, blocks;
    ghost var t: Forest := map[item := []];
    copy, u, blocks := CopyAndDelete(memory, item, true, Content(OwnOf(item.data), []), t);
    assert HasConstName(copy.data);
    assert copy.data.name in Strings(copy.data);
  }

  // An item that joins an object with cJSON_AddItemToObject: its old name is freed at once, constant or not, and
  // the copy in its place is freed with the object if and only if the item is not marked.
  method AddAndDelete(memory: Memory, parent: Node, name: StringBlock, item: Node,
                      ghost c: Content, ghost t: Forest, ghost d: Content, ghost u: Forest)
    requires Tree(parent, c, t) && Tree(item, d, u) && t.Keys !! u.Keys && Strangers(t, u)
    requires Live(t, memory.freed) && Live(u, memory.freed)
    requires parent.next == null && item.next == null && (t[parent] == [] ==> item.prev == null)
    requires name !in memory.freed && name != item.data.name
    modifies memory, parent`child, t[parent]`next, item`prev, item`data
    ensures item in memory.freed && item.data == old(item.data).(name := item.data.name)
    ensures old(item.data.name) != null ==> old(item.data.name) in memory.freed
    ensures item.data.name != null && (item.data.name in memory.freed <==> !old(item.data.nameIsConst))
  {
    hide Linked, Reached, Separate, Strangers, FreeOrder, Live, Matches;
    ghost var was := item.data;
    ghost var w := AddNamed(memory, parent, name, item, c, t, d, u);
    ghost var e := Content(c.own, c.kids + [Named(d, name.text)]);
    assert was.name != null ==> was.name in NameDropped(was);
    NameFreed(parent, e, w, item);
    NameLive(w, memory.freed, item);
    DeleteTree(memory, parent, e, w);
  }

  lemma NameLive(u: Forest, freed: seq<object>, m: Node)
    requires Live(u, freed) && m in u
    ensures m.data.name != null ==> m.data.name !in freed
  {
    assert m.data.name != null ==> m.data.name in Strings(m.data);
  }

  // An instance: the constant name of the item is freed, and the name put in its place is lost.
  method ConstNameIsFreed() returns (memory: Memory, constant: StringBlock, item: Node)
    ensures fresh(memory) && fresh(item) && item in memory.freed && constant in memory.freed
    ensures item.data.nameIsConst && item.data.name != null && item.data.name !in memory.freed
  {
    hide Tree;
    memory := new Memory();
    constant := new StringBlock("k");
    var name := new StringBlock("n");
    var parent := new Node();
    item := new Node();
    item.data := item.data.(kind := KindNull, nameIsConst := true, name := constant);
    Alone(parent);
    Alone(item);
    ghost var t: Forest, u: Forest := map[parent := []], map[item := []];
    AddAndDelete(memory, parent, name, item, Content(OwnOf(parent.data), []), t, Content(OwnOf(item.data), []), u);
  }
}
