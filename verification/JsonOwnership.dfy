/** Which trees can be deleted: those whose nodes and strings each have one owner. */
module JsonOwnership {
  import opened CText
  import opened JsonHeap
  import opened JsonDelete

  // Every node is in one child list at most, and every owned string belongs to one node.
  ghost predicate OneOwner(t: Forest)
    reads t.Keys
  {
    && Owned(t)
    && (forall m, n {:trigger Apart(t, m, n)} | m in t && n in t && m != n :: Apart(t, m, n))
    && (forall m, n | m in t && n in t && m != n :: forall b | b in OwnStrings(m.data) :: b !in OwnStrings(n.data))
    && (forall n | n in t :: NoDuplicates(OwnStrings(n.data)))
  }

  lemma {:induction false} ChainDistinct(ks: seq<Node>, i: nat, j: nat)
    requires Chain(ks) && i < j < |ks|
    ensures ks[i] != ks[j]
    decreases |ks| - j
  {
    assert ks[i].next == ks[i + 1];
    if j + 1 == |ks| {
      assert ks[j].next == null;
    } else {
      assert ks[j].next == ks[j + 1];
      ChainDistinct(ks, i + 1, j + 1);
    }
  }

  // Whatever is freed with a tree is a node that holds part of its content, or a string.
  lemma {:induction false} FreedPart(ks: seq<Node>, cs: seq<Content>, t: Forest, o: object)
    returns (e: Content)
    requires MatchList(ks, cs, t) && o in FreeOrderAll(ks, cs, t)
    ensures o is Node || o is StringBlock
    ensures o is Node ==> Matches(o as Node, e, t) && exists i :: 0 <= i < |cs| && Size(e) <= Size(cs[i])
    decreases cs
  {
    if o == ks[0] {
      e := cs[0];
    } else if o in FreeOrderAll(t[ks[0]], cs[0].kids, t) {
      e := FreedPart(t[ks[0]], cs[0].kids, t, o);
    } else if o in FreeOrderAll(ks[1..], cs[1..], t) {
      e := FreedPart(ks[1..], cs[1..], t, o);
      if o is Node {
        var i :| 0 <= i < |cs[1..]| && Size(e) <= Size(cs[1..][i]);
        assert Size(e) <= Size(cs[i + 1]);
      }
    } else {
      e := cs[0];
      assert o in OwnStrings(ks[0].data);
    }
  }

  // No node is below itself.
  lemma NotBelowItself(n: Node, c: Content, t: Forest)
    requires Matches(n, c, t)
    ensures n !in FreeOrderAll(t[n], c.kids, t)
  {
    if n in FreeOrderAll(t[n], c.kids, t) {
      var e := FreedPart(t[n], c.kids, t, n);
      ContentUnique(n, c, e, t);
    }
  }

  // A freed node other than those of the chain is the child of a freed node.
  lemma {:induction false} FreedParent(ks: seq<Node>, cs: seq<Content>, t: Forest, b: Node) returns (p: Node)
    requires MatchList(ks, cs, t) && b in FreeOrderAll(ks, cs, t) && b !in ks
    ensures p in t && b in t[p] && p in FreeOrderAll(ks, cs, t)
    decreases cs
  {
    if b in FreeOrder(ks[0], cs[0], t) {
      if b in t[ks[0]] {
        p := ks[0];
      } else {
        p := FreedParent(t[ks[0]], cs[0].kids, t, b);
      }
    } else {
      p := FreedParent(ks[1..], cs[1..], t, b);
    }
  }

  lemma {:induction false} InAll(ks: seq<Node>, cs: seq<Content>, t: Forest, i: nat, o: object)
    requires MatchList(ks, cs, t) && i < |ks| && o in FreeOrder(ks[i], cs[i], t)
    ensures o in FreeOrderAll(ks, cs, t)
  {
    if i > 0 {
      InAll(ks[1..], cs[1..], t, i - 1, o);
    }
  }

  lemma SameParent(t: Forest, b: Node, p: Node, q: Node)
    requires OneOwner(t) && p in t && q in t && b in t[p] && b in t[q]
    ensures p == q
  {
    assert p != q ==> Apart(t, p, q);
  }

  // The child x of n is in no other child's tree: its parent would be n, which is not below itself.
  lemma ChildNotBelowSibling(n: Node, c: Content, t: Forest, i: nat, j: nat)
    requires OneOwner(t) && Matches(n, c, t) && i < |t[n]| && j < |t[n]| && i != j
    ensures t[n][i] !in FreeOrder(t[n][j], c.kids[j], t)
  {
    var x, y, d := t[n][i], t[n][j], c.kids[j];
    assert Chain(t[n]);
    ChainDistinct(t[n], if i < j then i else j, if i < j then j else i);
    FreeOrderOfOne(y, d, t);
    if x in FreeOrder(y, d, t) {
      var p := FreedParent([y], [d], t, x);
      SameParent(t, x, p, n);
      InAll(t[n], c.kids, t, j, n);
      NotBelowItself(n, c, t);
      assert false;
    }
  }

  // Two trees whose tops are not in each other have no node in common: the parents of a common node would be one.
  lemma {:induction false} TreesApart(x: Node, c: Content, y: Node, d: Content, t: Forest, b: Node, e: Content)
    requires OneOwner(t) && Matches(x, c, t) && Matches(y, d, t) && Matches(b, e, t) && Size(e) <= Size(c)
    requires x !in FreeOrder(y, d, t) && y !in FreeOrder(x, c, t)
    ensures !(b in FreeOrder(x, c, t) && b in FreeOrder(y, d, t))
    decreases Size(c) - Size(e)
  {
    FreeOrderOfOne(x, c, t);
    FreeOrderOfOne(y, d, t);
    if b in FreeOrder(x, c, t) && b in FreeOrder(y, d, t) {
      var p := FreedParent([x], [c], t, b);
      var q := FreedParent([y], [d], t, b);
      SameParent(t, b, p, q);
      var f := FreedWith(x, c, t, p);
      ChildIsSmaller(p, f, b, e, t);
      TreesApart(x, c, y, d, t, p, f);
      assert false;
    }
  }

  // The trees of two children have no node in common.
  lemma SiblingsApart(n: Node, c: Content, t: Forest, i: nat, j: nat, b: Node)
    requires OneOwner(t) && Matches(n, c, t) && i < |t[n]| && j < |t[n]| && i != j
    ensures !(b in FreeOrder(t[n][i], c.kids[i], t) && b in FreeOrder(t[n][j], c.kids[j], t))
  {
    ChildNotBelowSibling(n, c, t, i, j);
    ChildNotBelowSibling(n, c, t, j, i);
    if b in FreeOrder(t[n][i], c.kids[i], t) {
      var e := FreedWith(t[n][i], c.kids[i], t, b);
      TreesApart(t[n][i], c.kids[i], t[n][j], c.kids[j], t, b, e);
    }
  }

  // The trees of two roots have no node in common.
  lemma RootsApart(x: Node, c: Content, y: Node, d: Content, t: Forest, b: Node)
    requires OneOwner(t) && IsRoot(t, x) && IsRoot(t, y) && x != y && Matches(x, c, t) && Matches(y, d, t)
    ensures !(b in FreeOrder(x, c, t) && b in FreeOrder(y, d, t))
  {
    RootNotBelow(x, y, d, t);
    RootNotBelow(y, x, c, t);
    if b in FreeOrder(x, c, t) {
      var e := FreedWith(x, c, t, b);
      TreesApart(x, c, y, d, t, b, e);
    }
  }

  lemma RootNotBelow(x: Node, y: Node, d: Content, t: Forest)
    requires IsRoot(t, x) && x != y && Matches(y, d, t)
    ensures x !in FreeOrder(y, d, t)
  {
    FreeOrderOfOne(y, d, t);
    if x in FreeOrder(y, d, t) {
      var p := FreedParent([y], [d], t, x);
      assert false;
    }
  }

  lemma ChildIsSmaller(p: Node, d: Content, b: Node, e: Content, t: Forest)
    requires Matches(p, d, t) && Matches(b, e, t) && b in t[p]
    ensures Size(e) < Size(d)
  {
    var k :| 0 <= k < |t[p]| && t[p][k] == b;
    ContentUnique(b, e, d.kids[k], t);
  }

  lemma {:induction false} InSome(ks: seq<Node>, cs: seq<Content>, t: Forest, i: nat, o: object) returns (j: nat)
    requires MatchList(ks, cs, t) && i <= |ks| && MatchList(ks[i..], cs[i..], t)
    requires o in FreeOrderAll(ks[i..], cs[i..], t)
    ensures i <= j < |ks| && o in FreeOrder(ks[j], cs[j], t)
    decreases |ks| - i
  {
    if i == |ks| {
      assert false;
    } else {
      FreeOrderStep(ks, cs, t, i);
      if o in FreeOrder(ks[i], cs[i], t) {
        j := i;
      } else {
        j := InSome(ks, cs, t, i + 1, o);
      }
    }
  }

  // A node freed with a tree holds a part of it no larger than the whole.
  lemma FreedWith(n: Node, c: Content, t: Forest, o: object) returns (e: Content)
    requires Matches(n, c, t) && o in FreeOrder(n, c, t)
    ensures o is Node || o is StringBlock
    ensures o is Node ==> Matches(o as Node, e, t) && Size(e) <= Size(c)
  {
    FreeOrderOfOne(n, c, t);
    e := FreedPart([n], [c], t, o);
  }

  lemma OwnerOf(n: Node, c: Content, t: Forest, b: StringBlock) returns (m: Node)
    requires Matches(n, c, t) && b in FreeOrder(n, c, t)
    ensures m in t && m in FreeOrder(n, c, t) && b in OwnStrings(m.data)
  {
    FreeOrderOfOne(n, c, t);
    FreesOwnedStrings([n], [c], t, b);
    m :| m in FreeOrderAll([n], [c], t) && b in OwnStrings(m.data);
    var e := FreedPart([n], [c], t, m);
  }

  // Two such trees have no string in common either.
  lemma NothingShared(x: Node, c: Content, y: Node, d: Content, t: Forest, o: object)
    requires OneOwner(t) && Matches(x, c, t) && Matches(y, d, t)
    requires x !in FreeOrder(y, d, t) && y !in FreeOrder(x, c, t)
    requires o in FreeOrder(x, c, t)
    ensures o !in FreeOrder(y, d, t)
  {
    var e := FreedWith(x, c, t, o);
    if o is Node {
      TreesApart(x, c, y, d, t, o as Node, e);
    } else if o in FreeOrder(y, d, t) {
      var m := OwnerOf(x, c, t, o as StringBlock);
      var k := OwnerOf(y, d, t, o as StringBlock);
      var f := FreedWith(x, c, t, m);
      TreesApart(x, c, y, d, t, m, f);
      assert false;
    }
  }

  lemma JoinDistinct<T>(a: seq<T>, b: seq<T>)
    requires NoDuplicates(a) && NoDuplicates(b) && forall x | x in a :: x !in b
    ensures NoDuplicates(a + b)
  {
    forall i, j | 0 <= i < j < |a + b| ensures (a + b)[i] != (a + b)[j] {
      if i < |a| <= j {
        assert a[i] in a && b[j - |a|] in b;
      }
    }
  }

  // No member of the chain is in the tree of another one.
  ghost predicate TopsApart(ks: seq<Node>, cs: seq<Content>, t: Forest)
    requires MatchList(ks, cs, t)
    reads t.Keys`data
  {
    forall i, j | 0 <= i < |ks| && 0 <= j < |ks| && i != j :: ks[i] !in FreeOrder(ks[j], cs[j], t)
  }

  // Freeing a tree gives every block back once.
  lemma {:induction false} FreedOnce(n: Node, c: Content, t: Forest)
    requires OneOwner(t) && Matches(n, c, t)
    ensures NoDuplicates(FreeOrder(n, c, t))
    decreases c, 1
  {
    var below, own := FreeOrderAll(t[n], c.kids, t), OwnStrings(n.data);
    forall i, j | 0 <= i < |t[n]| && 0 <= j < |t[n]| && i != j ensures t[n][i] !in FreeOrder(t[n][j], c.kids[j], t) {
      ChildNotBelowSibling(n, c, t, i, j);
    }
    ChainFreedOnce(t[n], c.kids, t, 0);
    assert t[n][0..] == t[n] && c.kids[0..] == c.kids;
    forall o | o in below ensures o !in own {
      if o in own {
        StringNotBelow(n, c, t, o as StringBlock);
      }
    }
    JoinDistinct(below, own);
    NotBelowItself(n, c, t);
    JoinDistinct(below + own, [n as object]);
  }

  // Freeing a chain gives every block back once.
  lemma {:induction false} ChainFreedOnce(ks: seq<Node>, cs: seq<Content>, t: Forest, i: nat)
    requires OneOwner(t) && MatchList(ks, cs, t) && TopsApart(ks, cs, t) && i <= |ks|
    ensures MatchList(ks[i..], cs[i..], t) && NoDuplicates(FreeOrderAll(ks[i..], cs[i..], t))
    decreases cs, 0, |ks| - i
  {
    if i < |ks| {
      FreeOrderStep(ks, cs, t, i);
      FreedOnce(ks[i], cs[i], t);
      ChainFreedOnce(ks, cs, t, i + 1);
      var first, rest := FreeOrder(ks[i], cs[i], t), FreeOrderAll(ks[i + 1..], cs[i + 1..], t);
      forall o | o in first ensures o !in rest {
        if o in rest {
          var j := InSome(ks, cs, t, i + 1, o);
          NothingShared(ks[i], cs[i], ks[j], cs[j], t, o);
          assert false;
        }
      }
      JoinDistinct(first, rest);
    }
  }

  // The same for a chain of roots, such as cJSON_Delete is given at the top.
  lemma RootsFreedOnce(ks: seq<Node>, cs: seq<Content>, t: Forest)
    requires OneOwner(t) && MatchList(ks, cs, t) && Chain(ks) && forall k | k in ks :: IsRoot(t, k)
    ensures NoDuplicates(FreeOrderAll(ks, cs, t))
  {
    forall i, j | 0 <= i < |ks| && 0 <= j < |ks| && i != j ensures ks[i] !in FreeOrder(ks[j], cs[j], t) {
      ChainDistinct(ks, if i < j then i else j, if i < j then j else i);
      RootNotBelow(ks[i], ks[j], cs[j], t);
    }
    ChainFreedOnce(ks, cs, t, 0);
    assert ks[0..] == ks && cs[0..] == cs;
  }

  // cJSON_Delete as it is called: on a chain of roots of which nothing has been freed.
  method DeleteRoots(memory: Memory, head: Node?, ghost ks: seq<Node>, ghost cs: seq<Content>, ghost t: Forest)
    requires head == Head(ks) && Chain(ks) && MatchList(ks, cs, t)
    requires OneOwner(t) && forall k | k in ks :: IsRoot(t, k)
    requires forall o | o in FreeOrderAll(ks, cs, t) :: o !in memory.freed
    modifies memory
    ensures memory.freed == old(memory.freed) + FreeOrderAll(ks, cs, t)
  {
    hide Owned, MatchList, NoDuplicates, IsRoot;
    RootsFreedOnce(ks, cs, t);
    JoinDistinct(memory.freed, FreeOrderAll(ks, cs, t));
    Delete(memory, head, ks, cs, t);
  }

  lemma StringNotBelow(n: Node, c: Content, t: Forest, b: StringBlock)
    requires OneOwner(t) && Matches(n, c, t) && b in OwnStrings(n.data)
    ensures b !in FreeOrderAll(t[n], c.kids, t)
  {
    if b in FreeOrderAll(t[n], c.kids, t) {
      FreesOwnedStrings(t[n], c.kids, t, b);
      var m: Node :| m in FreeOrderAll(t[n], c.kids, t) && b in OwnStrings(m.data);
      var e := FreedPart(t[n], c.kids, t, m);
      NotBelowItself(n, c, t);
      assert false;
    }
  }

  // A linked tree whose nodes share no strings and refer to nothing outside can be deleted; so can what the
  // parser returns, what it has built when it fails, and a copy.
  lemma SeparateCanBeDeleted(n: Node, c: Content, u: Forest)
    requires Linked(u) && Matches(n, c, u) && Separate(u)
    ensures OneOwner(u) && MatchList([n], [c], u) && NoDuplicates(FreeOrderAll([n], [c], u))
  {
    forall m | m in u ensures Chain(u[m]) && !m.data.isReference && m.child == Head(u[m]) {
      assert ChildList(m, u[m]) && OwnsItself(m.data);
    }
    forall m, k | m in u && k in u && m != k
      ensures forall b | b in OwnStrings(m.data) :: b !in OwnStrings(k.data)
    {
      assert ShareNothing(m.data, k.data);
      assert forall b: StringBlock | b in OwnStrings(m.data) :: b in Strings(m.data);
      assert forall b: StringBlock | b in OwnStrings(k.data) :: b in Strings(k.data);
    }
    FreedOnce(n, c, u);
    FreeOrderOfOne(n, c, u);
  }

  // Deleting the tree of n frees each of its nodes.
  lemma AllNodesFreed(n: Node, c: Content, u: Forest, m: Node)
    requires Tree(n, c, u) && m in u
    ensures m in FreeOrder(n, c, u)
  {
    FreeOrderOfOne(n, c, u);
    FreesTheOwned([n], [c], u, m);
    forall s: set<Node> | Encloses(s, [n], u) ensures m in s {
      assert Encloses(s * u.Keys, [n], u) by {
        assert n in [n] && n in u;
        forall k, j | k in s * u.Keys && k in u && j in u[k] ensures j in s * u.Keys {}
      }
      assert s * u.Keys <= u.Keys;
    }
  }

  lemma OnlyOwner(u: Forest, k: Node, m: Node, b: StringBlock)
    requires Separate(u) && k in u && m in u && b in OwnStrings(k.data) && b in Strings(m.data)
    ensures k == m
  {
    assert b in Strings(k.data);
    assert k != m ==> ShareNothing(k.data, m.data);
  }

  // It frees a value string always, and a name unless that is marked constant.
  lemma NameFreed(n: Node, c: Content, u: Forest, m: Node)
    requires Tree(n, c, u) && m in u
    ensures m.data.valuestring != null ==> m.data.valuestring in FreeOrder(n, c, u)
    ensures m.data.name != null ==> (m.data.name in FreeOrder(n, c, u) <==> !m.data.nameIsConst)
  {
    AllNodesFreed(n, c, u, m);
    FreeOrderOfOne(n, c, u);
    assert OwnsItself(m.data);
    if m.data.valuestring != null {
      FreesOwnedStrings([n], [c], u, m.data.valuestring);
      assert m.data.valuestring in OwnStrings(m.data);
    }
    if m.data.name != null {
      var b := m.data.name;
      FreesOwnedStrings([n], [c], u, b);
      if !m.data.nameIsConst {
        assert b in OwnStrings(m.data);
      } else if b in FreeOrder(n, c, u) {
        var k := OwnerOf(n, c, u, b);
        OnlyOwner(u, k, m, b);
        assert false;
      }
    }
  }

  // Only nodes of the tree are freed, and strings of theirs.
  lemma FreesOwnParts(n: Node, c: Content, u: Forest, o: object)
    requires Matches(n, c, u) && o in FreeOrder(n, c, u)
    ensures || (o is Node && o as Node in u)
            || (o is StringBlock && exists m :: m in u && o as StringBlock in Strings(m.data))
  {
    var e := FreedWith(n, c, u, o);
    if o is StringBlock {
      var m := OwnerOf(n, c, u, o as StringBlock);
    }
  }

  lemma LiveOrder(n: Node, c: Content, u: Forest, freed: seq<object>)
    requires Matches(n, c, u) && Live(u, freed)
    ensures forall o | o in FreeOrder(n, c, u) :: o !in freed
  {
    forall o | o in FreeOrder(n, c, u) ensures o !in freed {
      FreesOwnParts(n, c, u, o);
    }
  }

  // cJSON_Delete of a complete tree.
  method DeleteTree(memory: Memory, n: Node, ghost c: Content, ghost u: Forest)
    requires Tree(n, c, u) && n.next == null && Live(u, memory.freed)
    modifies memory
    ensures memory.freed == old(memory.freed) + FreeOrder(n, c, u)
    ensures forall m | m in u :: m in memory.freed
    ensures forall m, b | m in u && b in Strings(m.data) && !m.data.nameIsConst :: b in memory.freed
  {
    hide OneOwner, Owned, Linked, Separate, Reached, MatchList, NoDuplicates, FreeOrder, FreeOrderAll, OwnStrings;
    SeparateCanBeDeleted(n, c, u);
    FreeOrderOfOne(n, c, u);
    LiveOrder(n, c, u, memory.freed);
    DeleteRoots(memory, n, [n], [c], u);
    forall m | m in u ensures m in memory.freed {
      AllNodesFreed(n, c, u, m);
    }
    forall m, b | m in u && b in Strings(m.data) && !m.data.nameIsConst ensures b in memory.freed {
      NameFreed(n, c, u, m);
    }
  }
}
