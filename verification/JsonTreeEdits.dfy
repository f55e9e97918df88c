/** The edits on whole trees: what stays one well-linked tree, what comes apart, and what it stands for. */
module JsonTreeEdits {
  import opened CText
  import opened JsonTree
  import opened JsonHeap
  import opened JsonDelete
  import opened JsonOwnership
  import opened JsonLists
  import opened JsonObjects
  import opened JsonEdits

  ghost predicate Closed(t: Forest) {
    forall m, j | m in t && j in t[m] :: j in t
  }

  // What makes a tree, but for the links themselves.
  ghost predicate Shape(n: Node, c: Content, t: Forest)
    reads t.Keys`data
  {
    && Closed(t) && (forall m, k {:trigger Apart(t, m, k)} | m in t && k in t && m != k :: Apart(t, m, k))
    && IsRoot(t, n) && Separate(t) && Matches(n, c, t) && Reached([n], t)
  }

  ghost predicate Lists(t: Forest)
    reads t.Keys`child, t.Keys`next, t.Keys`prev
    requires Closed(t)
  {
    forall m {:trigger ChildList(m, t[m])} | m in t :: ChildList(m, t[m])
  }

  lemma TreeIsShape(n: Node, c: Content, t: Forest)
    requires Closed(t)
    ensures Tree(n, c, t) <==> Shape(n, c, t) && Lists(t)
  {}

  // A closed part of a forest holds what the whole holds.
  lemma {:induction false} MatchesWithin(n: Node, c: Content, t: Forest, v: Forest)
    requires Matches(n, c, t) && n in v && Closed(v) && forall m | m in v :: m in t && v[m] == t[m]
    ensures Matches(n, c, v)
    decreases c
  {
    forall i | 0 <= i < |c.kids| ensures Matches(v[n][i], c.kids[i], v) {
      assert v[n][i] in v[n];
      MatchesWithin(t[n][i], c.kids[i], t, v);
    }
  }

  // The part of t that is the tree of k.
  ghost function SubTree(k: Node, d: Content, t: Forest): Forest
    requires Matches(k, d, t)
    reads t.Keys`data
  {
    map m | m in t && m in FreeOrder(k, d, t) :: t[m]
  }

  // What freeing child i of n frees, in order.
  ghost function FreedChild(n: Node, c: Content, t: Forest, i: nat): seq<object>
    requires Matches(n, c, t)
    reads t.Keys`data
  {
    if i < |c.kids| then FreeOrder(t[n][i], c.kids[i], t) else []
  }

  // It is the same in any part of the forest that holds the tree.
  lemma {:induction false} FreeOrderWithin(ks: seq<Node>, cs: seq<Content>, t: Forest, v: Forest)
    requires MatchList(ks, cs, t) && MatchList(ks, cs, v) && forall m | m in v :: m in t && v[m] == t[m]
    ensures FreeOrderAll(ks, cs, v) == FreeOrderAll(ks, cs, t)
    decreases cs
  {
    if ks != [] {
      FreeOrderWithin(t[ks[0]], cs[0].kids, t, v);
      FreeOrderWithin(ks[1..], cs[1..], t, v);
    }
  }

  lemma SubTreeClosed(k: Node, d: Content, t: Forest)
    requires Matches(k, d, t) && Closed(t)
    ensures k in SubTree(k, d, t) && Closed(SubTree(k, d, t))
  {
    var v := SubTree(k, d, t);
    FreeOrderOfOne(k, d, t);
    forall m, j | m in v && j in v[m] ensures j in v {
      ChildIsFreed([k], [d], t, m, j);
    }
  }

  // It is a tree of its own.
  lemma SubTreeShape(k: Node, d: Content, t: Forest)
    requires Linked(t) && Separate(t) && Matches(k, d, t)
    ensures Tree(k, d, SubTree(k, d, t))
  {
    var v := SubTree(k, d, t);
    SubTreeClosed(k, d, t);
    MatchesWithin(k, d, t, v);
    SubTreeTop(k, d, t);
    SubTreeReached(k, d, t);
    assert Linked(v) by {
      forall m, j | m in v && j in v && m != j ensures Apart(v, m, j) {
        assert Apart(t, m, j);
      }
    }
  }

  lemma SubTreeTop(k: Node, d: Content, t: Forest)
    requires Matches(k, d, t) && Closed(t)
    ensures IsRoot(SubTree(k, d, t), k)
  {
    var v := SubTree(k, d, t);
    SubTreeClosed(k, d, t);
    forall m | m in v ensures k !in v[m] {
      if k in v[m] {
        var e := FreedWith(k, d, t, m);
        ChildIsSmaller(m, e, k, d, t);
        assert false;
      }
    }
  }

  lemma SubTreeReached(k: Node, d: Content, t: Forest)
    requires Matches(k, d, t) && Closed(t)
    ensures Reached([k], SubTree(k, d, t))
  {
    var v := SubTree(k, d, t);
    SubTreeClosed(k, d, t);
    FreeOrderOfOne(k, d, t);
    forall s: set<Node> | s <= v.Keys && Encloses(s, [k], v) ensures s == v.Keys {
      assert Encloses(s, [k], t) by {
        forall m, j | m in s && m in t && j in t[m] ensures j in s {
          assert v[m] == t[m];
        }
      }
      forall m | m in v ensures m in s {
        FreedIsEnclosed([k], [d], t, s, m);
      }
    }
  }

  // The tree of k is entered through k alone.
  lemma EntersAtTop(t: Forest, k: Node, d: Content, m: Node, j: Node)
    requires OneOwner(t) && Matches(k, d, t) && m in t && j in t[m]
    requires m !in SubTree(k, d, t) && j in SubTree(k, d, t)
    ensures j == k
  {
    FreeOrderOfOne(k, d, t);
    if j != k {
      var p := FreedParent([k], [d], t, j);
      SameParent(t, j, p, m);
      assert false;
    }
  }

  // The rest of t when the tree v of child i of n has been taken out.
  ghost function Rest(n: Node, t: Forest, i: nat, v: Forest): Forest
    requires n in t
  {
    (map m | m in t && m !in v :: t[m])[n := Removed(t[n], i)]
  }

  lemma RemovedMembers<T>(ks: seq<T>, i: nat, k: T)
    requires i < |ks| && forall m, j | 0 <= m < j < |ks| :: ks[m] != ks[j]
    ensures k in Removed(ks, i) <==> k in ks && k != ks[i]
  {
    var js := Removed(ks, i);
    if k in ks && k != ks[i] {
      var m :| 0 <= m < |ks| && ks[m] == k;
      RemovedAt(ks, i, if m < i then m else m - 1);
      assert js[if m < i then m else m - 1] == k;
    }
    if k in js {
      var m :| 0 <= m < |js| && js[m] == k;
      RemovedAt(ks, i, m);
    }
  }

  lemma NotInOwnChild(n: Node, c: Content, t: Forest, i: nat)
    requires Tree(n, c, t) && i < |t[n]|
    ensures n !in SubTree(t[n][i], c.kids[i], t)
  {
    if n in SubTree(t[n][i], c.kids[i], t) {
      var e := FreedWith(t[n][i], c.kids[i], t, n);
      ContentUnique(n, c, e, t);
    }
  }

  lemma RestClosed(n: Node, c: Content, t: Forest, i: nat)
    requires Tree(n, c, t) && i < |t[n]|
    ensures var v := SubTree(t[n][i], c.kids[i], t);
            Closed(Rest(n, t, i, v)) && n !in v
  {
    var v := SubTree(t[n][i], c.kids[i], t);
    var w := Rest(n, t, i, v);
    SeparateCanBeDeleted(n, c, t);
    NotInOwnChild(n, c, t, i);
    assert ChildList(n, t[n]);
    AllDistinct(t[n]);
    forall m, j | m in w && j in w[m] ensures j in w {
      RemovedMembers(t[n], i, j);
      if j in v {
        EntersAtTop(t, t[n][i], c.kids[i], m, j);
        SameParent(t, j, m, n);
        assert false;
      }
    }
  }

  lemma RestMatches(n: Node, c: Content, t: Forest, i: nat)
    requires Tree(n, c, t) && i < |t[n]|
    ensures var v := SubTree(t[n][i], c.kids[i], t);
            Matches(n, Content(c.own, Removed(c.kids, i)), Rest(n, t, i, v))
  {
    var v := SubTree(t[n][i], c.kids[i], t);
    RestClosed(n, c, t, i);
    RemoveChild(n, c, t, i);
    MatchesWithin(n, Content(c.own, Removed(c.kids, i)), t[n := Removed(t[n], i)], Rest(n, t, i, v));
  }

  lemma RestReached(n: Node, c: Content, t: Forest, i: nat)
    requires Tree(n, c, t) && i < |t[n]|
    ensures var v := SubTree(t[n][i], c.kids[i], t);
            Reached([n], Rest(n, t, i, v))
  {
    var v := SubTree(t[n][i], c.kids[i], t);
    var w := Rest(n, t, i, v);
    SubTreeClosed(t[n][i], c.kids[i], t);
    NotInOwnChild(n, c, t, i);
    assert ChildList(n, t[n]);
    AllDistinct(t[n]);
    forall s: set<Node> | s <= w.Keys && Encloses(s, [n], w) ensures s == w.Keys {
      assert Encloses(s + v.Keys, [n], t) by {
        forall m, j | m in s + v.Keys && m in t && j in t[m] ensures j in s + v.Keys {
          RemovedMembers(t[n], i, j);
          assert m in v ==> v[m] == t[m];
        }
      }
      assert s + v.Keys <= t.Keys;
    }
  }

  // Taking child i out of a tree leaves two trees, with no node and no string in common.
  lemma TakenApart(n: Node, c: Content, t: Forest, i: nat)
    requires Tree(n, c, t) && i < |t[n]|
    ensures var v := SubTree(t[n][i], c.kids[i], t);
            var w := Rest(n, t, i, v);
            && Tree(t[n][i], c.kids[i], v) && Shape(n, Content(c.own, Removed(c.kids, i)), w)
            && v.Keys !! w.Keys && v.Keys + w.Keys == t.Keys && Strangers(v, w)
  {
    var v := SubTree(t[n][i], c.kids[i], t);
    var w := Rest(n, t, i, v);
    SubTreeShape(t[n][i], c.kids[i], t);
    RestClosed(n, c, t, i);
    RestMatches(n, c, t, i);
    RestReached(n, c, t, i);
    RestApart(n, c, t, i, w);
  }

  lemma RestApart(n: Node, c: Content, t: Forest, i: nat, w: Forest)
    requires Tree(n, c, t) && i < |t[n]| && n in w && w[n] == Removed(t[n], i)
    requires forall m | m in w :: m in t && (m == n || w[m] == t[m])
    ensures IsRoot(w, n) && forall m, k {:trigger Apart(w, m, k)} | m in w && k in w && m != k :: Apart(w, m, k)
  {
    assert ChildList(n, t[n]);
    AllDistinct(t[n]);
    forall m, k | m in w && k in w && m != k ensures Apart(w, m, k) {
      assert Apart(t, m, k);
      forall j | j in w[m] ensures j !in w[k] {
        RemovedMembers(t[n], i, j);
      }
    }
    forall m | m in w ensures n !in w[m] {
      RemovedMembers(t[n], i, n);
    }
  }

  lemma InsertedMembers<T>(ks: seq<T>, i: nat, k: T, x: T)
    ensures x in Inserted(ks, i, k) <==> x in ks || x == k
  {
    if x == k {
      assert Inserted(ks, i, k)[if i < |ks| then i else |ks|] == k;
    }
  }

  lemma PutTogether(n: Node, c: Content, t: Forest, k: Node, d: Content, u: Forest, i: nat)
    requires Shape(n, c, t) && Shape(k, d, u) && t.Keys !! u.Keys && Strangers(t, u)
    ensures Shape(n, Content(c.own, Inserted(c.kids, i, d)), (t + u)[n := Inserted(t[n], i, k)])
  {
    hide Separate, Strangers, Reached;
    InsertChild(n, c, t, k, d, u, i);
    InsertedApart(n, t, k, u, i);
    InsertedReached(n, t, k, u, i);
    SeparateTogether(t, u);
    Relist(n, t + u, Inserted(t[n], i, k));
  }

  lemma Relist(n: Node, t: Forest, ks: seq<Node>)
    requires Separate(t) && n in t
    ensures Separate(t[n := ks])
  {
    var w := t[n := ks];
    forall m, k | m in w && k in w && m != k ensures ShareNothing(m.data, k.data) {
      assert m in t && k in t;
    }
  }

  lemma InsertedApart(n: Node, t: Forest, k: Node, u: Forest, i: nat)
    requires Closed(t) && Closed(u) && t.Keys !! u.Keys && IsRoot(t, n) && IsRoot(u, k)
    requires forall m, j {:trigger Apart(t, m, j)} | m in t && j in t && m != j :: Apart(t, m, j)
    requires forall m, j {:trigger Apart(u, m, j)} | m in u && j in u && m != j :: Apart(u, m, j)
    ensures var w := (t + u)[n := Inserted(t[n], i, k)];
            && Closed(w) && IsRoot(w, n)
            && forall m, j {:trigger Apart(w, m, j)} | m in w && j in w && m != j :: Apart(w, m, j)
  {
    var w := (t + u)[n := Inserted(t[n], i, k)];
    forall m, x | m in w && x in w[m]
      ensures if x == k then m == n else if m in t then x in t[m] && x in t else x in u[m] && x in u
    {
      InsertedMembers(t[n], i, k, x);
      assert m != n && m in t ==> w[m] == t[m] && x in t;
      assert m in u ==> w[m] == u[m];
    }
    forall m, j | m in w && j in w && m != j ensures Apart(w, m, j) {
      assert m in t && j in t ==> Apart(t, m, j);
      assert m in u && j in u ==> Apart(u, m, j);
      forall x | x in w[m] ensures x !in w[j] {
        assert x !in t.Keys || x !in u.Keys;
        if x in w[j] {
          assert false;
        }
      }
    }
  }

  lemma InsertedReached(n: Node, t: Forest, k: Node, u: Forest, i: nat)
    requires Reached([n], t) && Reached([k], u) && t.Keys !! u.Keys && Closed(t) && Closed(u) && n in t
    ensures Reached([n], (t + u)[n := Inserted(t[n], i, k)])
  {
    var w := (t + u)[n := Inserted(t[n], i, k)];
    forall s: set<Node> | s <= w.Keys && Encloses(s, [n], w) ensures s == w.Keys {
      InsertedMembers(t[n], i, k, k);
      assert k in w[n] && n in [n];
      assert Encloses(s * t.Keys, [n], t) by {
        forall m, j | m in s * t.Keys && m in t && j in t[m] ensures j in s * t.Keys {
          InsertedMembers(t[n], i, k, j);
          assert j in w[m];
        }
      }
      assert Encloses(s * u.Keys, [k], u) by {
        forall m, j | m in s * u.Keys && m in u && j in u[m] ensures j in s * u.Keys {
          assert w[m] == u[m];
        }
      }
    }
  }

  // The child lists of t other than that of n; none of them holds a member of ks.
  ghost predicate OtherLists(n: Node, ks: seq<Node>, t: Forest)
    reads (t.Keys - {n})`child, (t.Keys - Members(ks))`next, (t.Keys - Members(ks))`prev
  {
    forall m | m in t && m != n :: (forall x | x in t[m] :: x in t && x !in Members(ks)) && ChildList(m, t[m])
  }

  lemma OthersOf(n: Node, t: Forest)
    requires Linked(t) && n in t
    ensures Closed(t) && ChildList(n, t[n]) && OtherLists(n, t[n], t)
  {
    assert forall m | m in t && m != n :: Apart(t, m, n);
  }

  lemma AllOf(n: Node, ks: seq<Node>, t: Forest, w: Forest)
    requires OtherLists(n, ks, t) && Closed(w) && (n in w ==> ChildList(n, w[n]))
    requires forall m | m in w && m != n :: m in t && w[m] == t[m]
    ensures Lists(w)
  {}

  lemma OthersWithin(n: Node, ks: seq<Node>, t: Forest, v: Forest)
    requires OtherLists(n, ks, t) && Closed(v) && n !in v && forall m | m in v :: m in t && v[m] == t[m]
    ensures OtherLists(n, ks, v)
  {}

  // A tree taken for its shape, its own list and the lists of the others, and put together from them.
  lemma Opened(n: Node, c: Content, t: Forest)
    requires Tree(n, c, t)
    ensures n in t && |t[n]| == |c.kids| && Closed(t) && Shape(n, c, t)
    ensures ChildList(n, t[n]) && OtherLists(n, t[n], t) && forall x | x in t[n] :: x in Members(t[n])
  {
    SameLength(n, c, t);
    OthersOf(n, t);
    TreeIsShape(n, c, t);
  }

  lemma Unchanged(n: Node, c: Content, t: Forest, ks: seq<Node>)
    requires Shape(n, c, t) && OtherLists(n, ks, t) && t[n] == ks && ChildList(n, ks)
    ensures Tree(n, c, t)
  {
    AllOf(n, ks, t, t);
    TreeIsShape(n, c, t);
  }

  lemma SameLength(n: Node, c: Content, t: Forest)
    requires Matches(n, c, t)
    ensures n in t && |t[n]| == |c.kids|
  {}

  // cJSON_InsertItemInArray on trees: two become one. At the end of the list it is cJSON_AddItemToArray.
  method InsertTree(parent: Node, which: int, newitem: Node,
                    ghost c: Content, ghost t: Forest, ghost d: Content, ghost u: Forest)
    returns (ghost w: Forest)
    requires Tree(parent, c, t) && Tree(newitem, d, u) && t.Keys !! u.Keys && Strangers(t, u)
    requires Index(which) >= |t[parent]| ==> newitem.next == null && (t[parent] == [] ==> newitem.prev == null)
    modifies parent`child, t[parent]`next, t[parent]`prev, newitem`next, newitem`prev
    ensures w == (t + u)[parent := Inserted(t[parent], Index(which), newitem)]
    ensures Tree(parent, Content(c.own, Inserted(c.kids, Index(which), d)), w)
  {
    hide Tree, Shape, Strangers, ChildList, OtherLists;
    Opened(parent, c, t);
    ghost var ks := t[parent];
    w := (t + u)[parent := Inserted(ks, Index(which), newitem)];
    JoinLists(parent, t, newitem, d, u);
    PutTogether(parent, c, t, newitem, d, u, Index(which));
    InsertItemInArray(parent, which, newitem, ks);
    AllPutTogether(parent, ks + [newitem], t + u, Content(c.own, Inserted(c.kids, Index(which), d)), w);
  }

  lemma JoinLists(n: Node, t: Forest, k: Node, d: Content, u: Forest)
    requires n in t && Closed(t) && OtherLists(n, t[n], t) && Tree(k, d, u) && t.Keys !! u.Keys
    ensures OtherLists(n, t[n] + [k], t + u) && k in u && k !in t && k !in t[n] && Shape(k, d, u)
    ensures forall x | x in t[n] + [k] :: x in Members(t[n] + [k])
  {
    hide ChildList;
    OthersOfBoth(n, t, k, u);
    TreeIsShape(k, d, u);
    assert k in u.Keys;
  }

  lemma AllPutTogether(n: Node, ks: seq<Node>, t: Forest, c: Content, w: Forest)
    requires Shape(n, c, w) && OtherLists(n, ks, t) && ChildList(n, w[n])
    requires forall m | m in w && m != n :: m in t && w[m] == t[m]
    ensures Tree(n, c, w)
  {
    AllOf(n, ks, t, w);
    TreeIsShape(n, c, w);
  }

  lemma OthersOfBoth(n: Node, t: Forest, k: Node, u: Forest)
    requires n in t && OtherLists(n, t[n], t) && Linked(u) && IsRoot(u, k) && t.Keys !! u.Keys && Closed(t)
    ensures OtherLists(n, t[n] + [k], t + u)
  {
    hide ChildList;
    var w := t + u;
    forall m | m in w && m != n
      ensures (forall x | x in w[m] :: x in w && x !in Members(t[n] + [k])) && ChildList(m, w[m])
    {
      if m in u {
        assert w[m] == u[m];
        assert forall x | x in u[m] :: x in u.Keys && x != k;
        assert forall x | x in t[n] :: x in t.Keys;
      } else {
        assert w[m] == t[m];
        assert k in u.Keys;
        assert forall x | x in t[m] :: x in t.Keys && x !in Members(t[n]);
      }
    }
  }

  // The tree v of k, once child i of parent, and the rest w.
  ghost predicate Parted(parent: Node, k: Node, i: nat, c: Content, t: Forest, v: Forest, w: Forest)
    reads v.Keys, w.Keys
  {
    && i < |c.kids| && Tree(k, c.kids[i], v) && Tree(parent, Content(c.own, Removed(c.kids, i)), w)
    && v.Keys !! w.Keys && v.Keys + w.Keys == t.Keys && Strangers(v, w)
  }

  // What holds of the two parts before the links are changed, and does not depend on the links that change.
  ghost predicate Severable(n: Node, c: Content, t: Forest, ks: seq<Node>, i: nat, v: Forest, w: Forest)
    reads t.Keys`data, v.Keys`data, w.Keys`data
    reads (t.Keys + v.Keys - {n})`child, (t.Keys + v.Keys - Members(ks))`next, (t.Keys + v.Keys - Members(ks))`prev
  {
    && i < |ks| && |c.kids| == |ks| && Shape(ks[i], c.kids[i], v) && Shape(n, Content(c.own, Removed(c.kids, i)), w)
    && n !in v && w[n] == Removed(ks, i) && (forall m | m in w && m != n :: m in t && w[m] == t[m])
    && v.Keys !! w.Keys && v.Keys + w.Keys == t.Keys && Strangers(v, w)
    && OtherLists(n, ks, t) && OtherLists(n, ks, v)
  }

  lemma Sever(n: Node, c: Content, t: Forest, i: nat) returns (v: Forest, w: Forest)
    requires Tree(n, c, t) && i < |t[n]|
    ensures Severable(n, c, t, t[n], i, v, w)
    ensures Matches(t[n][i], c.kids[i], v) && FreeOrder(t[n][i], c.kids[i], v) == FreedChild(n, c, t, i)
  {
    hide Separate, Strangers, Reached, Matches, ChildList, OtherLists, FreeOrder;
    SameLength(n, c, t);
    OthersOf(n, t);
    ChildKept(n, c, t, i);
    TakenApart(n, c, t, i);
    v := SubTree(t[n][i], c.kids[i], t);
    w := Rest(n, t, i, v);
    FreeOrderOfOne(t[n][i], c.kids[i], t);
    FreeOrderOfOne(t[n][i], c.kids[i], v);
    FreeOrderWithin([t[n][i]], [c.kids[i]], t, v);
    TreeIsShape(t[n][i], c.kids[i], v);
    OthersWithin(n, t[n], t, v);
  }

  lemma NowParted(n: Node, c: Content, t: Forest, ks: seq<Node>, i: nat, v: Forest, w: Forest)
    requires Severable(n, c, t, ks, i, v, w) && ChildList(n, Removed(ks, i))
    ensures Parted(n, ks[i], i, c, t, v, w)
  {
    hide Separate, Strangers, Reached, Matches, ChildList, OtherLists;
    AllOf(n, ks, v, v);
    TreeIsShape(ks[i], c.kids[i], v);
    AllOf(n, ks, t, w);
    TreeIsShape(n, Content(c.own, Removed(c.kids, i)), w);
  }

  // cJSON_DetachItemFromArray on a tree: one becomes two.
  method DetachTree(parent: Node, which: int, ghost c: Content, ghost t: Forest)
    returns (k: Node?, ghost v: Forest, ghost w: Forest)
    requires Tree(parent, c, t)
    modifies parent`child, t[parent]`next, t[parent]`prev
    ensures k == Child(t[parent], Index(which)) && |t[parent]| == |c.kids|
    ensures k == null <==> Index(which) >= |c.kids|
    ensures k == null ==> w == t && Tree(parent, c, t)
    ensures k != null ==> k.next == null && k.prev == null && Parted(parent, k, Index(which), c, t, v, w)
  {
    hide Separate, Strangers, Reached, Matches, ChildList, OtherLists, Severable;
    ghost var i := Index(which);
    ghost var ks := t[parent];
    SameLength(parent, c, t);
    OthersOf(parent, t);
    assert forall x | x in ks :: x in Members(ks);
    v, w := map[], t;
    if i < |ks| {
      v, w := Sever(parent, c, t, i);
    }
    k := DetachItemFromArray(parent, which, ks);
    if k == null {
      AllOf(parent, ks, t, t);
      TreeIsShape(parent, c, t);
    } else {
      NowParted(parent, c, t, ks, i, v, w);
    }
  }

  // The tree v of a child of n can be freed without touching n or the other children.
  lemma CanDispose(memory: Memory, n: Node, c: Content, t: Forest, ks: seq<Node>, i: nat, v: Forest, w: Forest,
                   others: set<Node>)
    requires Severable(n, c, t, ks, i, v, w) && Lists(v) && Live(t, memory.freed)
    requires Members(ks) <= others && others !! v.Keys - {ks[i]}
    ensures Disposable(memory, ks, i, others, c.kids[i], v)
  {
    hide Strangers, Reached, ChildList, OtherLists, NoDuplicates;
    var k, d := ks[i], c.kids[i];
    TreeIsShape(k, d, v);
    SeparateCanBeDeleted(k, d, v);
    FreeOrderOfOne(k, d, v);
    forall o | o in FreeOrder(k, d, v) ensures o !in memory.freed {
      FreesOwnParts(k, d, v, o);
      if o is Node {
        assert o as Node in t;
      } else {
        var m :| m in v && o as StringBlock in Strings(m.data);
        assert m in t;
      }
    }
    JoinDistinct(memory.freed, FreeOrder(k, d, v));
    OwnedBelowTop(k, d, v);
  }

  lemma OwnedBelowTop(k: Node, d: Content, v: Forest)
    requires Tree(k, d, v)
    ensures OwnedBelow(k, v)
  {
    forall n, i {:trigger v[n][i]} | n in v && 0 <= i < |v[n]|
      ensures v[n][i] in v && v[n][i] != k && v[n][i].next == if i + 1 < |v[n]| then v[n][i + 1] else null
    {
      assert v[n][i] in v[n] && ChildList(n, v[n]);
    }
    forall n | n in v ensures !n.data.isReference && n.child == Head(v[n]) {
      assert OwnsItself(n.data) && ChildList(n, v[n]);
    }
  }

  // The other children are in the rest.
  lemma BesideChild(n: Node, c: Content, t: Forest, ks: seq<Node>, i: nat, v: Forest, w: Forest)
    requires Severable(n, c, t, ks, i, v, w) && forall m, j | 0 <= m < j < |ks| :: ks[m] != ks[j]
    ensures {n} + Members(ks) !! v.Keys - {ks[i]}
  {
    forall x | x in Members(ks) && x != ks[i] ensures x !in v {
      RemovedMembers(ks, i, x);
      assert x in w[n] && x in w.Keys;
    }
  }

  lemma SparesStrings(k: Node, d: Content, v: Forest, b: StringBlock)
    requires Matches(k, d, v) && forall m | m in v :: b !in Strings(m.data)
    ensures b !in FreeOrder(k, d, v)
  {
    if b in FreeOrder(k, d, v) {
      FreesOwnParts(k, d, v, b);
    }
  }

  // What stays is untouched by freeing what was taken out.
  lemma StaysLive(freed: seq<object>, k: Node, d: Content, t: Forest, v: Forest, w: Forest)
    requires Live(t, freed) && Matches(k, d, v) && v.Keys !! w.Keys && Strangers(v, w) && w.Keys <= t.Keys
    ensures Live(w, freed + FreeOrder(k, d, v))
  {
    forall n | n in w
      ensures n !in freed + FreeOrder(k, d, v) && forall b | b in Strings(n.data) :: b !in freed + FreeOrder(k, d, v)
    {
      assert n in t.Keys && n !in v.Keys;
      if n in FreeOrder(k, d, v) {
        FreesOwnParts(k, d, v, n);
      }
      assert forall m | m in v :: ShareNothing(m.data, n.data);
      forall b | b in Strings(n.data) ensures b !in FreeOrder(k, d, v) {
        SparesStrings(k, d, v, b);
      }
    }
  }

  // Of a tree taken apart, the nodes freed are those that no longer belong to it.
  lemma FreedOrKept(freed: seq<object>, k: Node, d: Content, v: Forest, w: Forest, m: Node)
    requires Tree(k, d, v) && Live(w, freed + FreeOrder(k, d, v)) && (m in v || m in w)
    ensures m in w <==> m !in freed + FreeOrder(k, d, v)
  {
    if m in v {
      AllNodesFreed(k, d, v, m);
    }
  }

  // cJSON_DeleteItemFromArray on a tree.
  method DeleteFromTree(memory: Memory, parent: Node, which: int, ghost c: Content, ghost t: Forest)
    returns (ghost v: Forest, ghost w: Forest)
    requires Tree(parent, c, t) && Live(t, memory.freed)
    modifies memory, parent`child, t[parent]`next, t[parent]`prev
    ensures |t[parent]| == |c.kids| && Live(w, memory.freed)
    ensures Index(which) >= |c.kids| ==> w == t && Tree(parent, c, t) && memory.freed == old(memory.freed)
    ensures var i := Index(which);
            i < |c.kids| ==>
              && Parted(parent, t[parent][i], i, c, t, v, w)
              && FreeOrder(t[parent][i], c.kids[i], v) == FreedChild(parent, c, t, i)
    ensures memory.freed == old(memory.freed) + old(FreedChild(parent, c, t, Index(which)))
  {
    hide Separate, Strangers, Reached, Matches, ChildList, OtherLists, Severable, Live, FreeOrder, Disposable;
    ghost var i := Index(which);
    ghost var ks := t[parent];
    ghost var d := c;
    SameLength(parent, c, t);
    OthersOf(parent, t);
    assert forall x | x in ks :: x in Members(ks);
    v, w := map[], t;
    if i < |ks| {
      d := c.kids[i];
      v, w := Sever(parent, c, t, i);
      ReadyToDispose(memory, parent, c, t, i, v, w);
    }
    DisposableNothing(memory, ks, i, {parent} + Members(ks), d, v);
    DeleteItemFromArray(memory, parent, which, ks, d, v);
    if i < |ks| {
      NowParted(parent, c, t, ks, i, v, w);
      StaysLive(old(memory.freed), ks[i], d, t, v, w);
      assert memory.freed == old(memory.freed) + FreeOrder(ks[i], d, v);
    } else {
      assert memory.freed == old(memory.freed);
      AllOf(parent, ks, t, t);
      TreeIsShape(parent, c, t);
    }
  }

  lemma DisposableNothing(memory: Memory, ks: seq<Node>, i: nat, others: set<Node>, c: Content, t: Forest)
    requires others >= Members(ks)
    ensures i >= |ks| ==> Disposable(memory, ks, i, others, c, t)
  {}

  lemma ReadyToDispose(memory: Memory, n: Node, c: Content, t: Forest, i: nat, v: Forest, w: Forest)
    requires Tree(n, c, t) && i < |t[n]| && Severable(n, c, t, t[n], i, v, w) && Live(t, memory.freed)
    ensures Disposable(memory, t[n], i, {n} + Members(t[n]), c.kids[i], v)
  {
    hide Separate, Strangers, Reached, Matches, OtherLists, Live;
    OthersOf(n, t);
    AllDistinct(t[n]);
    BesideChild(n, c, t, t[n], i, v, w);
    AllOf(n, t[n], v, v);
    CanDispose(memory, n, c, t, t[n], i, v, w, {n} + Members(t[n]));
  }

  lemma InsertedAgain<T>(ks: seq<T>, i: nat, k: T)
    requires i < |ks|
    ensures Inserted(Removed(ks, i), i, k) == Updated(ks, i, k)
  {
    var rest := Removed(ks, i);
    assert rest[..i] == ks[..i];
    assert rest[i..] == ks[i + 1..];
  }

  // Child i gives way to newitem: t loses the tree v of that child and gains u.
  lemma Exchange(n: Node, c: Content, t: Forest, i: nat, v: Forest, w: Forest, k: Node, d: Content, u: Forest)
    returns (x: Forest)
    requires i < |c.kids| && n in t && |t[n]| == |c.kids| && Severable(n, c, t, t[n], i, v, w)
    requires Shape(k, d, u) && t.Keys !! u.Keys && Strangers(t, u)
    ensures Shape(n, Content(c.own, Updated(c.kids, i, d)), x) && x[n] == Updated(t[n], i, k)
    ensures x.Keys == t.Keys - v.Keys + u.Keys && forall m | m in x && m != n :: m in t + u && x[m] == (t + u)[m]
  {
    hide Separate, Reached, Matches, OtherLists;
    var e := Content(c.own, Removed(c.kids, i));
    assert Strangers(w, u) by {
      forall m, j | m in w && j in u ensures ShareNothing(m.data, j.data) {
        assert m in t;
      }
    }
    PutTogether(n, e, w, k, d, u, i);
    x := (w + u)[n := Inserted(w[n], i, k)];
    InsertedAgain(t[n], i, k);
    InsertedAgain(c.kids, i, d);
  }

  lemma LiveTogether(freed: seq<object>, w: Forest, u: Forest, x: Forest)
    requires Live(w, freed) && Live(u, freed) && x.Keys <= w.Keys + u.Keys
    ensures Live(x, freed)
  {
    forall n | n in x ensures n !in freed && forall b | b in Strings(n.data) :: b !in freed {
      assert n in w.Keys || n in u.Keys;
    }
  }

  lemma ExchangeStaysLive(freed: seq<object>, k: Node, d: Content, t: Forest, v: Forest, w: Forest, u: Forest,
                          x: Forest)
    requires Live(t, freed) && Live(u, freed) && Matches(k, d, v) && v.Keys !! w.Keys && v.Keys + w.Keys == t.Keys
    requires Strangers(v, w) && Strangers(t, u) && t.Keys !! u.Keys && x.Keys <= w.Keys + u.Keys
    ensures Live(x, freed + FreeOrder(k, d, v))
  {
    hide Live, FreeOrder, Matches;
    StaysLive(freed, k, d, t, v, w);
    assert Strangers(v, u) by {
      forall m, j | m in v && j in u ensures ShareNothing(m.data, j.data) {
        assert m in t;
      }
    }
    StaysLive(freed, k, d, u, v, u);
    LiveTogether(freed + FreeOrder(k, d, v), w, u, x);
  }

  // The tree w in which child i has given way to k, but for the links that change.
  ghost predicate Exchanged(n: Node, c: Content, t: Forest, ks: seq<Node>, i: nat, v: Forest, k: Node, d: Content,
                            u: Forest, w: Forest)
    reads t.Keys`data, u.Keys`data, v.Keys`data, w.Keys`data, (t.Keys + u.Keys - {n})`child
    reads (t.Keys + u.Keys - Members(ks + [k]))`next, (t.Keys + u.Keys - Members(ks + [k]))`prev
  {
    && i < |ks| && |ks| == |c.kids| && Shape(n, Content(c.own, Updated(c.kids, i, d)), w) && w[n] == Updated(ks, i, k)
    && w.Keys == t.Keys - v.Keys + u.Keys && (forall m | m in w && m != n :: m in t + u && w[m] == (t + u)[m])
    && t.Keys !! u.Keys && v.Keys <= t.Keys && Matches(ks[i], c.kids[i], v) && Strangers(t, u)
    && Strangers(v, Outside(t, v)) && OtherLists(n, ks + [k], t + u)
  }

  ghost function Outside(t: Forest, v: Forest): Forest {
    map m | m in t && m !in v :: t[m]
  }

  lemma ReadyToExchange(n: Node, c: Content, t: Forest, i: nat, k: Node, d: Content, u: Forest)
    returns (v: Forest, rest: Forest, w: Forest)
    requires Tree(n, c, t) && i < |t[n]| && Tree(k, d, u) && t.Keys !! u.Keys && Strangers(t, u)
    ensures i < |c.kids| && Severable(n, c, t, t[n], i, v, rest) && Exchanged(n, c, t, t[n], i, v, k, d, u, w)
    ensures Matches(t[n][i], c.kids[i], v) && FreeOrder(t[n][i], c.kids[i], v) == FreedChild(n, c, t, i)
  {
    hide Separate, Reached, Matches, ChildList, OtherLists, Shape;
    SameLength(n, c, t);
    OthersOf(n, t);
    OthersOfBoth(n, t, k, u);
    TreeClosed(k, d, u);
    TreeIsShape(k, d, u);
    v, rest := Sever(n, c, t, i);
    w := Exchange(n, c, t, i, v, rest, k, d, u);
    SeveredParts(n, c, t, i, v, rest);
    assert Outside(t, v).Keys == rest.Keys;
  }

  lemma NowExchanged(n: Node, c: Content, t: Forest, ks: seq<Node>, i: nat, v: Forest, k: Node, d: Content,
                     u: Forest, w: Forest, freed: seq<object>)
    requires Exchanged(n, c, t, ks, i, v, k, d, u, w) && ChildList(n, Updated(ks, i, k))
    requires Live(t, freed) && Live(u, freed)
    ensures Tree(n, Content(c.own, Updated(c.kids, i, d)), w) && w.Keys == t.Keys - v.Keys + u.Keys
    ensures Matches(ks[i], c.kids[i], v) && Live(w, freed + FreeOrder(ks[i], c.kids[i], v))
  {
    hide Separate, Reached, Strangers, Matches, ChildList, OtherLists, Live, FreeOrder;
    ExchangeStaysLive(freed, ks[i], c.kids[i], t, v, Outside(t, v), u, w);
    AllOf(n, ks + [k], t + u, w);
    TreeIsShape(n, Content(c.own, Updated(c.kids, i, d)), w);
  }

  // cJSON_ReplaceItemInArray on trees: the new tree takes the place of that of the child, which is freed.
  method ReplaceInTree(memory: Memory, parent: Node, which: int, newitem: Node,
                       ghost c: Content, ghost t: Forest, ghost d: Content, ghost u: Forest)
    returns (ghost v: Forest, ghost w: Forest)
    requires Tree(parent, c, t) && Tree(newitem, d, u) && t.Keys !! u.Keys && Strangers(t, u)
    requires Live(t, memory.freed) && Live(u, memory.freed)
    modifies memory, parent`child, t[parent]`next, t[parent]`prev, newitem`next, newitem`prev
    ensures |t[parent]| == |c.kids| && Live(w, memory.freed)
    ensures Index(which) >= |c.kids| ==> w == t && Tree(parent, c, t) && memory.freed == old(memory.freed)
    ensures var i := Index(which);
            i < |c.kids| ==>
              && Tree(parent, Content(c.own, Updated(c.kids, i, d)), w) && w.Keys == t.Keys - v.Keys + u.Keys
              && Matches(t[parent][i], c.kids[i], v)
              && FreeOrder(t[parent][i], c.kids[i], v) == FreedChild(parent, c, t, i)
    ensures memory.freed == old(memory.freed) + old(FreedChild(parent, c, t, Index(which)))
    ensures forall m | m in t :: m in w <==> m !in memory.freed
  {
    hide Tree, Shape, Strangers, Matches, ChildList, OtherLists, Severable, Exchanged, Live, FreeOrder, Disposable;
    ghost var i := Index(which);
    Opened(parent, c, t);
    ghost var ks, kid, rest := t[parent], c, t;
    JoinLists(parent, t, newitem, d, u);
    v, w := map[], t;
    if i < |ks| {
      kid := c.kids[i];
      v, rest, w := ReadyToExchange(parent, c, t, i, newitem, d, u);
      ReadyToReplace(memory, parent, c, t, i, v, rest, newitem);
    }
    DisposableNothing(memory, ks, i, {parent, newitem} + Members(ks), kid, v);
    ReplaceItemInArray(memory, parent, which, newitem, ks, kid, v);
    if i < |ks| {
      NowExchanged(parent, c, t, ks, i, v, newitem, d, u, w, old(memory.freed));
      assert memory.freed == old(memory.freed) + FreeOrder(ks[i], kid, v);
    } else {
      assert memory.freed == old(memory.freed);
      Unchanged(parent, c, t, ks);
    }
    LiveNodes(w, memory.freed);
  }

  lemma LiveNodes(t: Forest, freed: seq<object>)
    requires Live(t, freed)
    ensures forall m | m in t :: m !in freed
  {}

  lemma SeveredParts(n: Node, c: Content, t: Forest, i: nat, v: Forest, w: Forest)
    requires i < |c.kids| && n in t && Severable(n, c, t, t[n], i, v, w)
    ensures Matches(t[n][i], c.kids[i], v) && v.Keys !! w.Keys && v.Keys + w.Keys == t.Keys && Strangers(v, w)
  {}

  lemma ReadyToReplace(memory: Memory, n: Node, c: Content, t: Forest, i: nat, v: Forest, w: Forest, k: Node)
    requires Tree(n, c, t) && i < |t[n]| && Severable(n, c, t, t[n], i, v, w) && Live(t, memory.freed) && k !in t
    ensures Disposable(memory, t[n], i, {n, k} + Members(t[n]), c.kids[i], v)
    ensures Matches(t[n][i], c.kids[i], v) && forall m | m in v :: m in FreeOrder(t[n][i], c.kids[i], v)
  {
    hide Separate, Strangers, Reached, Matches, OtherLists, Live;
    OthersOf(n, t);
    AllDistinct(t[n]);
    BesideChild(n, c, t, t[n], i, v, w);
    AllOf(n, t[n], v, v);
    TreeIsShape(t[n][i], c.kids[i], v);
    forall m | m in v ensures m in FreeOrder(t[n][i], c.kids[i], v) {
      AllNodesFreed(t[n][i], c.kids[i], v, m);
    }
    assert k !in v.Keys;
    CanDispose(memory, n, c, t, t[n], i, v, w, {n, k} + Members(t[n]));
  }

  ghost function Without(n: Node, u: Forest): Forest {
    map m | m in u && m != n :: u[m]
  }

  // The shape of the tree of n, whatever the fields of n say.
  ghost predicate Headless(n: Node, kids: seq<Content>, u: Forest)
    reads (u.Keys - {n})`data
  {
    && n in u && Closed(u) && IsRoot(u, n) && Reached([n], u)
    && (forall m, k {:trigger Apart(u, m, k)} | m in u && k in u && m != k :: Apart(u, m, k))
    && Separate(Without(n, u)) && |u[n]| == |kids| && MatchAll(u[n], kids, Without(n, u))
  }

  lemma Behead(n: Node, d: Content, u: Forest)
    requires Shape(n, d, u)
    ensures Headless(n, d.kids, u) && StrangerTo(n.data, Without(n, u)) && OwnsItself(n.data)
  {
    var v := Without(n, u);
    forall m, j | m in v && j in v[m] ensures j in v {
      assert u[m] == v[m];
    }
    forall i | 0 <= i < |d.kids| ensures Matches(u[n][i], d.kids[i], v) {
      assert u[n][i] in u[n];
      MatchesWithin(u[n][i], d.kids[i], u, v);
    }
    forall m | m in v ensures ShareNothing(n.data, m.data) {
      assert m in u && m != n;
    }
  }

  lemma Crown(n: Node, kids: seq<Content>, u: Forest)
    requires Headless(n, kids, u) && StrangerTo(n.data, Without(n, u)) && OwnsItself(n.data)
    ensures Shape(n, Content(OwnOf(n.data), kids), u)
  {
    hide Reached, Separate, StrangerTo, OwnsItself;
    var v := Without(n, u);
    SeparateRooted(n, u[n], v);
    MatchAllInLarger(u[n], kids, v, u);
    assert v[n := u[n]] == u;
  }

  // The strings of a node, but for its name.
  lemma NewName(d: Data, name: StringBlock, u: Forest)
    requires StrangerTo(d, u) && forall k | k in u :: name !in Strings(k.data)
    ensures StrangerTo(d.(name := name), u)
  {
    forall k | k in u ensures ShareNothing(d.(name := name), k.data) {
      assert ShareNothing(d, k.data);
    }
  }

  lemma TreeClosed(n: Node, c: Content, t: Forest)
    requires Tree(n, c, t)
    ensures Closed(t)
  {}
}
