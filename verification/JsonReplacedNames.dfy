/** The name that a replacing item had, and the one it gets: what a later deletion of the whole gives back. */
module JsonReplacedNames {
  import opened CText
  import opened JsonTree
  import opened JsonHeap
  import opened JsonConstNames
  import opened JsonDelete
  import opened JsonLists
  import opened JsonObjects
  import opened JsonOwnership
  import opened JsonTreeEdits
  import opened JsonValueEdits

  lemma OwnedFreed(n: Node, c: Content, u: Forest, m: Node, o: object)
    requires Tree(n, c, u) && m in u && o in OwnStrings(m.data)
    ensures o in FreeOrder(n, c, u)
  {
    NameFreed(n, c, u, m);
  }

  // What was freed with child i includes the strings of every node freed with it.
  lemma OwnedFreedWith(n: Node, c: Content, t: Forest, i: nat, m: Node, o: object)
    requires Matches(n, c, t) && m in FreedChild(n, c, t, i) && o in OwnStrings(m.data)
    ensures o in FreedChild(n, c, t, i)
  {
    FreeOrderOfOne(t[n][i], c.kids[i], t);
    FreesOwnedStrings([t[n][i]], [c.kids[i]], t, o as StringBlock);
  }

  // The strings that each node owns.
  ghost function AllOwned(ns: set<Node>): map<Node, seq<object>>
    reads ns`data
  {
    map m | m in ns :: OwnStrings(m.data)
  }

  // The strings that the nodes of t and u owned, before the item, which had the fields was, got its new name.
  ghost predicate OwnedBefore(own: map<Node, seq<object>>, t: Forest, u: Forest, item: Node, was: Data)
    reads (t.Keys + u.Keys - {item})`data
  {
    && own.Keys == t.Keys + u.Keys && item in u && item !in t && own[item] == OwnStrings(was)
    && (forall m | m in own && m != item :: own[m] == OwnStrings(m.data))
    && (was.name != null ==>
          was.name != was.valuestring && forall m | m in own && m != item :: was.name !in Strings(m.data))
  }

  // All these nodes and all that they owned have been freed.
  ghost predicate AllBack(own: map<Node, seq<object>>, ns: set<Node>, freed: seq<object>)
    requires ns <= own.Keys
  {
    forall m | m in ns :: m in freed && forall o | o in own[m] :: o in freed
  }

  // What has become of the new item and of what its tree owned, when it had the fields was and got this name.
  ghost predicate Balance(own: map<Node, seq<object>>, us: set<Node>, item: Node, was: Data, name: StringBlock,
                          freed: seq<object>)
    requires us <= own.Keys
  {
    && AllBack(own, us - {item}, freed) && item in freed && (was.valuestring != null ==> was.valuestring in freed)
    && (was.name != null ==> was.name !in freed) && (name in freed <==> !was.nameIsConst)
    && (AllBack(own, own.Keys, freed) && name in freed <==> was.name == null && !was.nameIsConst)
  }

  lemma BeforeReplacing(parent: Node, c: Content, t: Forest, item: Node, d: Content, u: Forest, freed: seq<object>,
                        name: Option<Text>, own: map<Node, seq<object>>)
    returns (below: seq<object>, all: seq<object>)
    requires Tree(parent, c, t) && Tree(item, d, u) && t.Keys !! u.Keys && Strangers(t, u)
    requires Live(t, freed) && Live(u, freed) && own == AllOwned(t.Keys + u.Keys)
    ensures parent in t && parent !in t[parent] && item in u && item !in t
    ensures forall m | m in t || m in u :: m !in freed
    ensures OwnedBefore(own, t, u, item, item.data)
    ensures item.data.name == null || item.data.name !in freed + below
    ensures Matches(parent, c, t) && below == FreedChild(parent, c, t, FirstNamed(t[parent], name))
    ensures forall m, o | m in t && m in below && o in own[m] :: o in below
    ensures all == freed + FreeOrder(parent, c, t) && Live(u, all)
  {
    hide FreeOrder, OwnStrings, FirstNamed;
    SameLength(parent, c, t);
    all := freed + FreeOrder(parent, c, t);
    StaysLive(freed, parent, c, u, t, u);
    var i := FirstNamed(t[parent], name);
    below := FreedChild(parent, c, t, i);
    forall m, o | m in t && m in below && o in own[m] ensures o in below {
      OwnedFreedWith(parent, c, t, i, m, o);
    }
    var b := item.data.name;
    if b != null {
      assert b in Strings(item.data) && OwnsItself(item.data);
      forall m | m in t || (m in u && m != item) ensures b !in Strings(m.data) {
        assert m in t ==> ShareNothing(m.data, item.data);
        assert m in u ==> ShareNothing(m.data, item.data);
      }
      if i < |c.kids| {
        SparesStrings(t[parent][i], c.kids[i], t, b);
      }
    }
  }

  // What deletion of the whole frees of what was in t: all of it, part of it having been freed before.
  lemma OldGivenBack(parent: Node, e: Content, w: Forest, own: map<Node, seq<object>>, t: Forest, u: Forest,
                     item: Node, was: Data, below: seq<object>)
    requires Tree(parent, e, w) && OwnedBefore(own, t, u, item, was) && forall m | m in t :: m in w || m in below
    requires forall k, o | k in t && k in below && o in own[k] :: o in below
    ensures t.Keys + u.Keys == own.Keys && AllBack(own, t.Keys, below + FreeOrder(parent, e, w))
  {
    hide Linked, IsRoot, Reached, Separate, FreeOrder, OwnStrings;
    forall m | m in t && m in w ensures m in FreeOrder(parent, e, w) {
      AllNodesFreed(parent, e, w, m);
    }
    forall m, o | m in t && o in own[m] && m in w ensures o in FreeOrder(parent, e, w) {
      OwnedFreed(parent, e, w, m, o);
    }
  }

  // What it frees of the new item: all but its old name, and the new one if there is no mark.
  lemma NewGivenBack(parent: Node, e: Content, w: Forest, own: map<Node, seq<object>>, t: Forest, u: Forest,
                     item: Node, was: Data)
    requires Tree(parent, e, w) && OwnedBefore(own, t, u, item, was) && u.Keys <= w.Keys <= t.Keys + u.Keys
    requires item.data.name != null && item.data == was.(name := item.data.name) && item.data.name != was.name
    ensures t.Keys + u.Keys == own.Keys && AllBack(own, u.Keys - {item}, FreeOrder(parent, e, w))
    ensures item in u && item in FreeOrder(parent, e, w) && own[item] == OwnStrings(was)
    ensures was.valuestring != null ==> was.valuestring in FreeOrder(parent, e, w)
    ensures was.name != null ==> was.name !in FreeOrder(parent, e, w)
    ensures item.data.name in FreeOrder(parent, e, w) <==> !was.nameIsConst
  {
    hide Linked, IsRoot, Reached, Separate, FreeOrder;
    forall m | m in u ensures m in FreeOrder(parent, e, w) {
      assert m in w.Keys;
      AllNodesFreed(parent, e, w, m);
    }
    forall m, o | m in u && m != item && o in own[m] ensures o in FreeOrder(parent, e, w) {
      assert m in w.Keys;
      OwnedFreed(parent, e, w, m, o);
    }
    NameFreed(parent, e, w, item);
    if was.name != null {
      forall m | m in w ensures was.name !in Strings(m.data) {
        assert m in t.Keys || m in u.Keys;
      }
      SparesStrings(parent, e, w, was.name);
    }
  }

  // An item that takes a place in an object with cJSON_ReplaceItemInObject: its old name is overwritten, so it is
  // freed by no later deletion of the whole, and its new name is if and only if the item is not marked. So every
  // string is given back if and only if the item had no name and no mark.
  method ReplaceAndDelete(memory: Memory, parent: Node, name: StringBlock, newitem: Node,
                          ghost c: Content, ghost t: Forest, ghost d: Content, ghost u: Forest)
    returns (ghost i: nat, ghost own: map<Node, seq<object>>)
    requires Tree(parent, c, t) && Tree(newitem, d, u) && t.Keys !! u.Keys && Strangers(t, u)
    requires Live(t, memory.freed) && Live(u, memory.freed) && parent.next == null && name !in memory.freed
    modifies memory, parent`child, t[parent]`next, t[parent]`prev, newitem`next, newitem`prev, newitem`data
    ensures own == old(AllOwned(t.Keys + u.Keys))
    ensures i == old(FirstNamed(t[parent], Some(name.text)))
    ensures t.Keys + u.Keys == own.Keys && AllBack(own, t.Keys, memory.freed)
    ensures i >= |c.kids| ==> newitem.data == old(newitem.data) && Live(u, memory.freed)
    ensures i < |c.kids| ==>
              && newitem.data.name != null && fresh(newitem.data.name)
              && newitem.data == old(newitem.data).(name := newitem.data.name)
              && Balance(own, u.Keys, newitem, old(newitem.data), newitem.data.name, memory.freed)
  {
    hide *;
    ghost var was, freed := newitem.data, memory.freed;
    own := AllOwned(t.Keys + u.Keys);
    ghost var below, untouched := BeforeReplacing(parent, c, t, newitem, d, u, freed, Some(name.text), own);
    ghost var w;
    i, w := ReplaceNamed(memory, parent, name, newitem, c, t, d, u);
    ghost var e := Content(c.own, Updated(c.kids, i, Named(d, name.text)));
    ghost var order := Reckon(parent, e, w, own, t, u, newitem, was, freed, below, i < |c.kids|);
    if i >= |c.kids| {
      NotUpdated(c, i, Named(d, name.text));
      assert memory.freed == freed && untouched == freed + order && Live(u, untouched);
    }
    DeleteTree(memory, parent, e, w);
    assert memory.freed == freed + below + order;
  }

  method NamedNull(text: CString) returns (n: Node, name: StringBlock)
    ensures fresh(n) && fresh(name) && n.next == null && n.prev == null && n.child == null
    ensures n.data == Data(KindNull, false, false, 0, 0, null, name) && name.text == text
  {
    name := new StringBlock(text);
    n := new Node();
    n.data := n.data.(kind := KindNull, name := name);
  }

  // An instance: the name that the new item had is lost.
  method OldNameIsLost() returns (memory: Memory, oldName: StringBlock, newitem: Node)
    ensures fresh(memory) && fresh(newitem) && newitem in memory.freed
    ensures fresh(oldName) && oldName !in memory.freed
    ensures newitem.data.name != null && newitem.data.name in memory.freed
  {
    hide Tree, Live, Strangers, Balance, AllBack, FirstNamed, Matches, AllOwned, Strings, OwnsItself, ShareNothing;
    memory := new Memory();
    var parent := new Node();
    var item, name := NamedNull("k");
    newitem, oldName := NamedNull("o");
    parent.child := item;
    ghost var c, t := OneMember(parent, item, name);
    ghost var d, u := Single(newitem, oldName, parent, item, name);
    NoneFreed(t, memory.freed);
    NoneFreed(u, memory.freed);
    ghost var i, own := ReplaceAndDelete(memory, parent, name, newitem, c, t, d, u);
    NewIsBack(own, u.Keys, newitem, oldName, newitem.data.name, memory.freed);
  }

  lemma NewIsBack(own: map<Node, seq<object>>, us: set<Node>, item: Node, oldName: StringBlock, name: StringBlock,
                  freed: seq<object>)
    requires us <= own.Keys
    requires Balance(own, us, item, Data(KindNull, false, false, 0, 0, null, oldName), name, freed)
    ensures item in freed && oldName !in freed && name in freed
  {}

  lemma NoneFreed(t: Forest, freed: seq<object>)
    requires freed == []
    ensures Live(t, freed)
  {}

  // An object with one member, and another item.
  lemma OneMember(parent: Node, item: Node, name: StringBlock) returns (c: Content, t: Forest)
    requires parent != item && parent.child == item && item.child == null && item.next == null && item.prev == null
    requires parent.data == Data(KindFalse, false, false, 0, 0, null, null)
    requires item.data == Data(KindNull, false, false, 0, 0, null, name)
    ensures t == map[parent := [item], item := []] && Tree(parent, c, t) && |c.kids| == 1
    ensures FirstNamed(t[parent], Some(name.text)) == 0
  {
    hide Reached, FirstNamed, SameName;
    t := map[parent := [item], item := []];
    c := Content(OwnOf(parent.data), [Content(OwnOf(item.data), [])]);
    assert Matches(item, c.kids[0], t);
    PairReached(parent, item, t);
    FirstIsNamed(item, name);
  }

  lemma PairReached(parent: Node, item: Node, t: Forest)
    requires parent != item && t == map[parent := [item], item := []]
    ensures Reached([parent], t)
  {
    forall s: set<Node> | s <= t.Keys && Encloses(s, [parent], t) ensures s == t.Keys {
      assert parent in [parent] && item in t[parent];
    }
  }

  lemma FirstIsNamed(item: Node, name: StringBlock)
    requires item.data.name == name
    ensures FirstNamed([item], Some(name.text)) == 0
  {}

  lemma Single(other: Node, oldName: StringBlock, parent: Node, item: Node, name: StringBlock)
    returns (d: Content, u: Forest)
    requires other.child == null && other.data == Data(KindNull, false, false, 0, 0, null, oldName) && name != oldName
    requires parent.data == Data(KindFalse, false, false, 0, 0, null, null)
    requires item.data == Data(KindNull, false, false, 0, 0, null, name)
    ensures u == map[other := []] && Tree(other, d, u) && Strangers(map[parent := [item], item := []], u)
  {
    d, u := Content(OwnOf(other.data), []), map[other := []];
    Alone(other);
  }

  lemma NotUpdated(c: Content, i: nat, d: Content)
    requires i >= |c.kids|
    ensures Content(c.own, Updated(c.kids, i, d)) == c
  {}

  lemma Reckon(parent: Node, e: Content, w: Forest, own: map<Node, seq<object>>, t: Forest, u: Forest, item: Node,
               was: Data, freed: seq<object>, below: seq<object>, found: bool)
    returns (order: seq<object>)
    requires Tree(parent, e, w) && Live(w, freed + below) && OwnedBefore(own, t, u, item, was)
    requires forall m | m in t :: m !in freed && (m in w <==> m !in freed + below)
    requires forall k, o | k in t && k in below && o in own[k] :: o in below
    requires was.name == null || was.name !in freed + below
    requires found ==> u.Keys <= w.Keys <= t.Keys + u.Keys && item.data.name != null && item.data.name != was.name
                       && item.data == was.(name := item.data.name)
    ensures Matches(parent, e, w) && order == FreeOrder(parent, e, w) && t.Keys + u.Keys == own.Keys
    ensures var all := freed + below + order;
            && AllBack(own, t.Keys, all)
            && (found ==> Balance(own, u.Keys, item, was, item.data.name, all))
  {
    hide Linked, IsRoot, Reached, Separate, FreeOrder, Live, Matches, OwnStrings, OwnedBefore, AllBack;
    order := FreeOrder(parent, e, w);
    OldGivenBack(parent, e, w, own, t, u, item, was, below);
    BackInMore(own, t.Keys, freed, below, order);
    if found {
      NewGivenBack(parent, e, w, own, t, u, item, was);
      NameLive(w, freed + below, item);
      Tally(own, t.Keys, u.Keys, item, was, freed, below, order);
    }
  }

  lemma BackInMore(own: map<Node, seq<object>>, ns: set<Node>, freed: seq<object>, below: seq<object>,
                   order: seq<object>)
    requires ns <= own.Keys && AllBack(own, ns, below + order)
    ensures AllBack(own, ns, freed + below + order)
  {
    forall o | o in below + order ensures o in freed + below + order {
      assert o in below || o in order;
    }
  }

  lemma Tally(own: map<Node, seq<object>>, ts: set<Node>, us: set<Node>, item: Node, was: Data, freed: seq<object>,
              below: seq<object>, order: seq<object>)
    requires ts + us == own.Keys && AllBack(own, ts, freed + below + order) && AllBack(own, us - {item}, order)
    requires item in us && item in order && own[item] == OwnStrings(was)
    requires was.valuestring != null ==> was.valuestring in order
    requires was.name != null ==> was.name !in order && was.name !in freed + below
    ensures AllBack(own, us - {item}, freed + below + order)
    ensures !was.nameIsConst ==> (AllBack(own, own.Keys, freed + below + order) <==> was.name == null)
  {
    var all := freed + below + order;
    assert AllBack(own, us - {item}, all) by {
      forall o | o in order ensures o in all {}
    }
    if !was.nameIsConst {
      if was.name != null {
        assert was.name in own[item] && was.name !in all;
      } else {
        forall m | m in own ensures m in all && forall o | o in own[m] :: o in all {
          assert m != item ==> m in ts || m in us - {item};
        }
      }
    }
  }
}
