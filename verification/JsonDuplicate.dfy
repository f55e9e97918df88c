/** cJSON_Duplicate: a deep copy of whatever can be reached below a node. */
module JsonDuplicate {
  import opened CText
  import opened JsonTree
  import opened JsonHeap
  import opened JsonWalk

  lemma ChildMatches(n: Node, c: Content, t: Forest, i: nat)
    requires Matches(n, c, t) && i < |c.kids|
    ensures n in t && |t[n]| == |c.kids| && Matches(t[n][i], c.kids[i], t)
  {}

  // What a copy holds: nothing of it is a reference.
  ghost function Copied(c: Content): Content
    decreases c
  {
    Content(c.own.(isReference := false), CopiedAll(c.kids))
  }

  ghost function CopiedAll(cs: seq<Content>): (r: seq<Content>)
    ensures |r| == |cs| && forall i | 0 <= i < |cs| :: r[i] == Copied(cs[i])
    decreases cs
  {
    if cs == [] then [] else [Copied(cs[0])] + CopiedAll(cs[1..])
  }

  // A copy stands for the same value.
  lemma {:induction false} CopyDenotes(c: Content, v: Json)
    requires Denotes(c, v)
    ensures Denotes(Copied(c), v)
    decreases v
  {
    match v {
      case Array(items) =>
        forall i | 0 <= i < |items| ensures Denotes(Copied(c).kids[i], items[i]) {
          CopyDenotes(c.kids[i], items[i]);
        }
      case Object(members) =>
        forall i | 0 <= i < |members| ensures Denotes(Copied(c).kids[i], members[i].value) {
          CopyDenotes(c.kids[i], members[i].value);
        }
      case _ =>
    }
  }

  // The strings of the nodes of u are these blocks.
  ghost predicate StringsAre(u: Forest, blocks: set<StringBlock>)
    reads u.Keys`data
  {
    && (forall n | n in u :: Strings(n.data) <= blocks)
    && (forall b | b in blocks :: exists n :: n in u && b in Strings(n.data))
  }

  lemma StringsTogether(u: Forest, blocks: set<StringBlock>, v: Forest, added: set<StringBlock>)
    requires StringsAre(u, blocks) && StringsAre(v, added) && blocks !! added && u.Keys !! v.Keys
    ensures Strangers(u, v) && StringsAre(u + v, blocks + added)
  {
    var w := u + v;
    forall b | b in blocks + added ensures exists n :: n in w && b in Strings(n.data) {
      if b in blocks {
        var n :| n in u && b in Strings(n.data);
        assert n in w;
      } else {
        var n :| n in v && b in Strings(n.data);
        assert n in w;
      }
    }
  }

  lemma StringsRooted(n: Node, ks: seq<Node>, u: Forest, blocks: set<StringBlock>)
    requires StringsAre(u, blocks) && n !in u && Strings(n.data) !! blocks
    ensures StrangerTo(n.data, u) && StringsAre(u[n := ks], Strings(n.data) + blocks)
  {
    var w := u[n := ks];
    forall b | b in Strings(n.data) + blocks ensures exists m :: m in w && b in Strings(m.data) {
      if b in blocks {
        var m :| m in u && b in Strings(m.data);
        assert m in w;
      } else {
        assert n in w;
      }
    }
  }

  method CopyFields(item: Node, ghost freed: seq<object>) returns (newitem: Node)
    requires item !in freed && forall b | b in Strings(item.data) :: b !in freed
    ensures fresh(newitem) && newitem.next == null && newitem.prev == null && newitem.child == null
    ensures OwnOf(newitem.data) == OwnOf(item.data).(isReference := false) && fresh(Strings(newitem.data))
    ensures OwnsItself(newitem.data)
  {
    newitem := new Node();
    var d := item.data.(isReference := false, valuestring := null, name := null);
    if item.data.valuestring != null {
      var copy := Strdup(item.data.valuestring, freed);
      d := d.(valuestring := copy);
    }
    if item.data.name != null {
      var copy := Strdup(item.data.name, freed);
      d := d.(name := copy);
    }
    newitem.data := d;
  }

  // c is what item and its descendants hold, following the forest t, of which nothing has been freed.
  method Duplicate(item: Node, recurse: bool, ghost c: Content, ghost t: Forest, ghost freed: seq<object>)
    returns (newitem: Node, ghost u: Forest, ghost blocks: set<StringBlock>)
    requires Spans(t) && Matches(item, c, t) && Live(t, freed)
    ensures fresh(u.Keys) && fresh(blocks) && StringsAre(u, blocks)
    ensures newitem in u && newitem.next == null && newitem.prev == null
    ensures Tree(newitem, if recurse then Copied(c) else Content(c.own.(isReference := false), []), u)
    decreases c, 1
  {
    hide Tree, Built, StringsAre, Spans;
    assert item in t;
    newitem := CopyFields(item, freed);
    blocks := Strings(newitem.data);
    if !recurse {
      u := map[newitem := []];
      Alone(newitem);
      StringsOfOne(newitem);
      return;
    }
    ghost var last, ks, below;
    last, ks, u, below := DuplicateChildren(item, newitem, c, t, freed);
    NotYet(newitem, last, ks, CopiedAll(c.kids), u);
    StringsRooted(newitem, ks, u, below);
    Complete(newitem, last, ks, CopiedAll(c.kids), u);
    u, blocks := u[newitem := ks], blocks + below;
  }

  lemma StringsOfOne(n: Node)
    ensures StringsAre(map[n := []], Strings(n.data))
  {
    var u: Forest := map[n := []];
    assert n in u;
  }

  lemma NotYet(newitem: Node, last: Node?, ks: seq<Node>, cs: seq<Content>, u: Forest)
    requires Built(newitem, last, ks, cs, u)
    ensures newitem !in u
  {}

  // The loop of Duplicate over the children of item.
  method DuplicateChildren(item: Node, newitem: Node, ghost c: Content, ghost t: Forest, ghost freed: seq<object>)
    returns (ghost last: Node?, ghost ks: seq<Node>, ghost u: Forest, ghost blocks: set<StringBlock>)
    requires Spans(t) && Matches(item, c, t) && Live(t, freed) && newitem !in t
    requires newitem.child == null
    modifies newitem`child
    ensures fresh(u.Keys) && fresh(blocks) && StringsAre(u, blocks)
    ensures |ks| == |c.kids| && Built(newitem, last, ks, CopiedAll(c.kids), u)
    decreases c, 0
  {
    hide Matches, Built, StringsAre, Spans, Live, Copied, CopiedAll;
    ks, u, blocks := [], map[], {};
    AtFirstChild(item, c, t);
    NothingCopied(newitem, CopiedAll(c.kids));
    var cptr := item.child;
    var nptr: Node? := null;
    while cptr != null
      invariant |ks| <= |c.kids| && AtChild(t, item, |ks|, cptr)
      invariant Built(newitem, nptr, ks, CopiedAll(c.kids), u)
      invariant fresh(u.Keys) && fresh(blocks) && StringsAre(u, blocks)
      invariant Matches(item, c, t) && Live(t, freed)
      decreases |c.kids| - |ks|
    {
      label Before:
      ghost var u0, blocks0 := u, blocks;
      ChildMatches(item, c, t, |ks|);
      cptr, nptr, u, blocks := CopyChild(cptr, newitem, nptr, ks, u, blocks, item, c, t, freed);
      ks := ks + [nptr];
      forall n | n in u.Keys ensures fresh(n) {
        assert n in u0.Keys || fresh@Before(n);
      }
      forall b | b in blocks ensures fresh(b) {
        assert b in blocks0 || fresh@Before(b);
      }
    }
    last := nptr;
  }

  lemma NothingCopied(newitem: Node, cs: seq<Content>)
    requires newitem.child == null
    ensures Built(newitem, null, [], cs, map[]) && StringsAre(map[], {})
  {}

  lemma AtFirstChild(item: Node, c: Content, t: Forest)
    requires Spans(t) && Matches(item, c, t)
    ensures AtChild(t, item, 0, item.child) && |t[item]| == |c.kids|
  {}

  // One turn of that loop: copies cptr, links the copy behind nptr and steps to the next child.
  method CopyChild(cptr: Node, newitem: Node, nptr: Node?, ghost ks: seq<Node>, ghost u: Forest,
                   ghost blocks: set<StringBlock>, ghost item: Node, ghost c: Content, ghost t: Forest,
                   ghost freed: seq<object>)
    returns (cnext: Node?, newchild: Node, ghost w: Forest, ghost more: set<StringBlock>)
    requires AtChild(t, item, |ks|, cptr) && |ks| < |c.kids| && Matches(item, c, t) && Live(t, freed)
    requires Built(newitem, nptr, ks, CopiedAll(c.kids), u)
    requires newitem !in t && u.Keys !! t.Keys && StringsAre(u, blocks)
    modifies newitem`child, u.Keys`next
    ensures AtChild(t, item, |ks| + 1, cnext) && Matches(item, c, t) && Live(t, freed)
    ensures Built(newitem, newchild, ks + [newchild], CopiedAll(c.kids), w)
    ensures fresh(w.Keys - u.Keys) && fresh(more - blocks) && StringsAre(w, more)
    decreases c, 0, 0
  {
    hide Matches, MatchAll, Built, Tree, Grown, Linked, Spans, Copied, CopiedAll, Live, StringsAre, Strangers;
    ghost var v, added;
    ChildMatches(item, c, t, |ks|);
    newchild, v, added := Duplicate(cptr, true, c.kids[|ks|], t, freed);
    assert u.Keys !! v.Keys;
    assert AtChild(t, item, |ks|, cptr) && Matches(item, c, t) && Live(t, freed);
    assert Built(newitem, nptr, ks, CopiedAll(c.kids), u);
    StringsTogether(u, blocks, v, added);
    w, more := u + v, blocks + added;
    AttachCopy(newitem, nptr, newchild, ks, CopiedAll(c.kids), u, v);
    Advance(t, item, |ks|);
    cnext := cptr.next;
  }

  method AttachCopy(newitem: Node, nptr: Node?, newchild: Node, ghost ks: seq<Node>, ghost cs: seq<Content>,
                    ghost u: Forest, ghost v: Forest)
    requires Built(newitem, nptr, ks, cs, u) && |ks| < |cs|
    requires Tree(newchild, cs[|ks|], v) && newchild.next == null && newchild.prev == null
    requires u.Keys !! v.Keys && newitem !in v && Strangers(u, v)
    modifies newitem`child, newchild`prev, u.Keys`next
    ensures Built(newitem, newchild, ks + [newchild], cs, u + v)
  {
    hide Reached, Separate, Strangers, Matches;
    assert nptr != null ==> nptr in ks && nptr in u.Keys;
    LinkLast(newitem, nptr, newchild, ks, u, v);
    MatchAllGrows(ks, newchild, cs, u, v);
    SeparateTogether(u, v);
    ReachedTogether(ks, newchild, u, v);
  }
}
