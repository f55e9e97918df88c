/** Places inside a tree: the node at the end of a path, its tree, and what lies around that. */
module JsonPaths {
  import opened CText
  import opened JsonTree
  import opened JsonHeap
  import opened JsonDelete
  import opened JsonOwnership
  import opened JsonTreeEdits

  // A path gives the place of an item or member on each level; the empty path is the value itself.
  predicate Has(v: Json, path: seq<nat>)
    decreases |path|
  {
    path == [] ||
    match v
    case Array(items) => path[0] < |items| && Has(items[path[0]], path[1..])
    case Object(members) => path[0] < |members| && Has(members[path[0]].value, path[1..])
    case _ => false
  }

  function ValueAt(v: Json, path: seq<nat>): Json
    requires Has(v, path)
    decreases |path|
  {
    if path == [] then v
    else match v
      case Array(items) => ValueAt(items[path[0]], path[1..])
      case Object(members) => ValueAt(members[path[0]].value, path[1..])
  }

  // v with x at the path; names of members stay.
  function Edited(v: Json, path: seq<nat>, x: Json): Json
    requires Has(v, path)
    decreases |path|
  {
    if path == [] then x
    else match v
      case Array(items) => Array(items[path[0] := Edited(items[path[0]], path[1..], x)])
      case Object(members) =>
        var m := members[path[0]];
        Object(members[path[0] := Member(m.name, Edited(m.value, path[1..], x))])
  }

  // The paths part ways before either ends.
  predicate Diverge(p: seq<nat>, q: seq<nat>)
    decreases |p|
  {
    p != [] && q != [] && (p[0] != q[0] || Diverge(p[1..], q[1..]))
  }

  // An edit is seen at its own path and at no other that parts from it.
  lemma {:induction false} EditedThere(v: Json, path: seq<nat>, x: Json, other: seq<nat>)
    requires Has(v, path) && Diverge(path, other)
    ensures var w := Edited(v, path, x);
            && Has(w, path) && ValueAt(w, path) == x
            && Has(w, other) == Has(v, other) && (Has(v, other) ==> ValueAt(w, other) == ValueAt(v, other))
    decreases |path|
  {
    EditedRead(v, path, x);
    if path[0] == other[0] {
      match v {
        case Array(items) => EditedThere(items[path[0]], path[1..], x, other[1..]);
        case Object(members) => EditedThere(members[path[0]].value, path[1..], x, other[1..]);
      }
    }
  }

  lemma {:induction false} EditedRead(v: Json, path: seq<nat>, x: Json)
    requires Has(v, path)
    ensures Has(Edited(v, path, x), path) && ValueAt(Edited(v, path, x), path) == x
    decreases |path|
  {
    if path != [] {
      match v {
        case Array(items) => EditedRead(items[path[0]], path[1..], x);
        case Object(members) => EditedRead(members[path[0]].value, path[1..], x);
      }
    }
  }

  ghost predicate Reaches(c: Content, path: seq<nat>)
    decreases |path|
  {
    path == [] || (path[0] < |c.kids| && Reaches(c.kids[path[0]], path[1..]))
  }

  ghost function ContentAt(c: Content, path: seq<nat>): Content
    requires Reaches(c, path)
    decreases |path|
  {
    if path == [] then c else ContentAt(c.kids[path[0]], path[1..])
  }

  ghost function ContentEdited(c: Content, path: seq<nat>, d: Content): Content
    requires Reaches(c, path)
    decreases |path|
  {
    if path == [] then d
    else Content(c.own, c.kids[path[0] := ContentEdited(c.kids[path[0]], path[1..], d)])
  }

  ghost function NodeAt(n: Node, c: Content, t: Forest, path: seq<nat>): (k: Node)
    requires Matches(n, c, t) && Reaches(c, path)
    reads t.Keys`data
    ensures Matches(k, ContentAt(c, path), t)
    decreases |path|
  {
    if path == [] then n else NodeAt(t[n][path[0]], c.kids[path[0]], t, path[1..])
  }

  lemma {:induction false} DenotedAt(c: Content, v: Json, path: seq<nat>)
    requires Denotes(c, v) && Has(v, path)
    ensures Reaches(c, path) && Denotes(ContentAt(c, path), ValueAt(v, path))
    decreases |path|
  {
    if path != [] {
      match v {
        case Array(items) => DenotedAt(c.kids[path[0]], items[path[0]], path[1..]);
        case Object(members) => DenotedAt(c.kids[path[0]], members[path[0]].value, path[1..]);
      }
    }
  }

  // What stands for a value edited; the name of a member is not part of its value.
  lemma {:induction false} DenotesEdited(c: Content, v: Json, path: seq<nat>, d: Content, x: Json)
    requires Denotes(c, v) && Has(v, path) && Reaches(c, path) && Denotes(d, x)
    requires d.own.name == ContentAt(c, path).own.name
    ensures Denotes(ContentEdited(c, path, d), Edited(v, path, x))
    ensures ContentEdited(c, path, d).own.name == c.own.name
    decreases |path|
  {
    if path != [] {
      match v {
        case Array(items) => DenotesEdited(c.kids[path[0]], items[path[0]], path[1..], d, x);
        case Object(members) => DenotesEdited(c.kids[path[0]], members[path[0]].value, path[1..], d, x);
      }
    }
  }

  // The node at the path of a tree that stands for v.
  ghost function Located(root: Node, v: Json, c: Content, t: Forest, path: seq<nat>): (k: Node)
    requires Represents(root, v, c, t) && Has(v, path)
    reads t.Keys
    ensures Reaches(c, path) && Matches(k, ContentAt(c, path), t) && Denotes(ContentAt(c, path), ValueAt(v, path))
  {
    DenotedAt(c, v, path);
    NodeAt(root, c, t, path)
  }

  // Below root, which stands for v, the node k at the path stands for x.
  ghost predicate Document(root: Node, v: Json, c: Content, t: Forest, path: seq<nat>, k: Node, x: Json)
    reads t.Keys
  {
    Represents(root, v, c, t) && Has(v, path) && ValueAt(v, path) == x && k == Located(root, v, c, t, path)
  }

  lemma WholeDocument(root: Node, v: Json, c: Content, t: Forest)
    requires Represents(root, v, c, t)
    ensures Document(root, v, c, t, [], root, v)
  {}

  lemma InDocument(root: Node, v: Json, c: Content, t: Forest, path: seq<nat>, k: Node, x: Json)
    requires Document(root, v, c, t, path, k, x)
    ensures k in t && forall j | j in t[k] :: j in t
  {}

  // The document of v after its node k at the path has come to stand for x: nothing else of it has changed.
  ghost predicate Became(root: Node, v: Json, c: Content, t: Forest, path: seq<nat>, k: Node, x: Json)
    reads t.Keys
  {
    Has(v, path) && Document(root, Edited(v, path, x), c, t, path, k, x)
  }

  lemma BecameTree(root: Node, v: Json, c: Content, t: Forest, path: seq<nat>, k: Node, x: Json)
    requires Became(root, v, c, t, path, k, x)
    ensures Has(v, path) && Represents(root, Edited(v, path, x), c, t)
  {}

  lemma {:induction false} OneLevelMore(v: Json, path: seq<nat>, i: nat)
    requires Has(v, path) && Has(ValueAt(v, path), [i])
    ensures Has(v, path + [i]) && ValueAt(v, path + [i]) == ValueAt(ValueAt(v, path), [i])
    decreases |path|
  {
    if path == [] {
      assert path + [i] == [i];
    } else {
      assert (path + [i])[1..] == path[1..] + [i];
      match v {
        case Array(items) => OneLevelMore(items[path[0]], path[1..], i);
        case Object(members) => OneLevelMore(members[path[0]].value, path[1..], i);
      }
    }
  }

  lemma {:induction false} OneNodeMore(n: Node, c: Content, t: Forest, path: seq<nat>, i: nat)
    requires Matches(n, c, t) && Reaches(c, path) && i < |ContentAt(c, path).kids|
    ensures Reaches(c, path + [i]) && NodeAt(n, c, t, path + [i]) == t[NodeAt(n, c, t, path)][i]
    ensures ContentAt(c, path + [i]) == ContentAt(c, path).kids[i]
    decreases |path|
  {
    if path == [] {
      assert path + [i] == [i] && [i][1..] == [];
    } else {
      assert (path + [i])[1..] == path[1..] + [i];
      OneNodeMore(t[n][path[0]], c.kids[path[0]], t, path[1..], i);
    }
  }

  // Every node is at the end of a path.
  lemma PathTo(root: Node, v: Json, c: Content, t: Forest, k: Node) returns (path: seq<nat>)
    requires Represents(root, v, c, t) && k in t
    ensures Has(v, path) && Document(root, v, c, t, path, k, ValueAt(v, path))
  {
    hide Linked, Separate, Denotes;
    var s := set m | m in t && exists p :: Reaches(c, p) && NodeAt(root, c, t, p) == m;
    assert Encloses(s, [root], t) by {
      assert Reaches(c, []) && NodeAt(root, c, t, []) == root;
      forall m, j | m in s && m in t && j in t[m] ensures j in s {
        var p :| Reaches(c, p) && NodeAt(root, c, t, p) == m;
        var i :| 0 <= i < |t[m]| && t[m][i] == j;
        OneNodeMore(root, c, t, p, i);
        MatchesInside(m, ContentAt(c, p), t, i);
      }
    }
    assert s == t.Keys;
    path :| Reaches(c, path) && NodeAt(root, c, t, path) == k;
    ReachesHas(c, v, path);
  }

  lemma MatchesInside(n: Node, c: Content, t: Forest, i: nat)
    requires Matches(n, c, t) && i < |c.kids|
    ensures t[n][i] in t
  {}

  lemma {:induction false} ReachesHas(c: Content, v: Json, path: seq<nat>)
    requires Denotes(c, v) && Reaches(c, path)
    ensures Has(v, path)
    decreases |path|
  {
    if path != [] {
      match v {
        case Array(items) => ReachesHas(c.kids[path[0]], items[path[0]], path[1..]);
        case Object(members) => ReachesHas(c.kids[path[0]], members[path[0]].value, path[1..]);
      }
    }
  }

  // What z holds around its one gap, the place of k at the end of the path.
  ghost predicate HoldsAround(n: Node, c: Content, path: seq<nat>, k: Node, z: Forest)
    reads z.Keys`data
    decreases |path|
  {
    if path == [] then n == k
    else
      && n in z && OwnOf(n.data) == c.own && |z[n]| == |c.kids| && path[0] < |c.kids|
      && HoldsAround(z[n][path[0]], c.kids[path[0]], path[1..], k, z)
      && forall i | 0 <= i < |c.kids| && i != path[0] :: Matches(z[n][i], c.kids[i], z)
  }

  // The nodes of the tree of n that are not of the tree of k, which is listed among them: all of this is left alone
  // by whatever changes the tree of k below its top.
  ghost predicate Around(n: Node, c: Content, path: seq<nat>, k: Node, z: Forest)
    reads z.Keys, k`next, k`prev
  {
    && k !in z && (forall m, j | m in z && j in z[m] :: j in z || j == k)
    && (forall m {:trigger ChildList(m, z[m])} | m in z :: ChildList(m, z[m]))
    && (forall m, j {:trigger Apart(z, m, j)} | m in z && j in z && m != j :: Apart(z, m, j))
    && (n in z || n == k) && (forall m | m in z :: n !in z[m])
    && Separate(z) && Reached([n], z[k := []]) && HoldsAround(n, c, path, k, z)
  }

  lemma {:induction false} AroundReaches(n: Node, c: Content, path: seq<nat>, k: Node, z: Forest)
    requires HoldsAround(n, c, path, k, z)
    ensures Reaches(c, path)
    ensures path == [] || exists p :: p in z && k in z[p]
    decreases |path|
  {
    if path != [] {
      AroundReaches(z[n][path[0]], c.kids[path[0]], path[1..], k, z);
    }
  }

  lemma {:induction false} Filled(n: Node, c: Content, path: seq<nat>, k: Node, z: Forest, d: Content, u: Forest)
    requires HoldsAround(n, c, path, k, z) && Reaches(c, path) && Matches(k, d, u) && z.Keys !! u.Keys
    ensures var e := ContentEdited(c, path, d);
            && Matches(n, e, z + u) && Reaches(e, path) && NodeAt(n, e, z + u, path) == k
            && ContentAt(e, path) == d
    decreases |path|
  {
    if path == [] {
      MatchesInLarger(k, d, u, z + u);
    } else {
      Filled(z[n][path[0]], c.kids[path[0]], path[1..], k, z, d, u);
      forall i | 0 <= i < |c.kids| && i != path[0] ensures Matches(z[n][i], c.kids[i], z + u) {
        MatchesInLarger(z[n][i], c.kids[i], z, z + u);
      }
    }
  }

  lemma FilledReached(n: Node, k: Node, z: Forest, u: Forest)
    requires Reached([n], z[k := []]) && Reached([k], u) && z.Keys !! u.Keys && k !in z && k in u && Closed(u)
    requires forall m, j | m in z && j in z[m] :: j in z || j == k
    ensures Reached([n], z + u)
  {
    var w, y := z + u, z[k := []];
    forall s: set<Node> | s <= w.Keys && Encloses(s, [n], w) ensures s == w.Keys {
      assert n in [n] && n in y;
      assert Encloses(s * y.Keys, [n], y) by {
        forall m, j | m in s * y.Keys && m in y && j in y[m] ensures j in s * y.Keys {
          assert m in z && w[m] == z[m];
        }
      }
      assert s * y.Keys == y.Keys && k in y;
      assert Encloses(s * u.Keys, [k], u) by {
        forall m, j | m in s * u.Keys && m in u && j in u[m] ensures j in s * u.Keys {
          assert w[m] == u[m];
        }
      }
      assert s * u.Keys == u.Keys;
      forall m | m in w ensures m in s {
        assert m in y.Keys || m in u.Keys;
      }
    }
  }

  lemma FilledLinked(n: Node, c: Content, path: seq<nat>, k: Node, z: Forest, u: Forest)
    requires Around(n, c, path, k, z) && Linked(u) && IsRoot(u, k) && z.Keys !! u.Keys
    ensures Linked(z + u) && IsRoot(z + u, n)
  {
    hide Separate, Reached, HoldsAround, ChildList;
    var w := z + u;
    forall m, j | m in w && j in w[m] ensures j in w && (m in u ==> j in u && j != k) && (m in z ==> j in z || j == k) {
      assert m in u ==> w[m] == u[m];
    }
    forall m, j | m in w && j in w && m != j ensures Apart(w, m, j) {
      assert m in z && j in z ==> Apart(z, m, j);
      assert m in u && j in u ==> Apart(u, m, j);
      forall x | x in w[m] ensures x !in w[j] {
        assert x in z ==> x !in u.Keys;
        if x in w[j] {
          assert false;
        }
      }
    }
    forall m | m in w ensures ChildList(m, w[m]) && n !in w[m] {
      assert m in u ==> w[m] == u[m];
      assert m in z ==> w[m] == z[m];
    }
  }

  // Whatever tree k has now, it is the part of the whole tree at that path.
  lemma PutBack(n: Node, c: Content, path: seq<nat>, k: Node, z: Forest, d: Content, u: Forest)
    requires Around(n, c, path, k, z) && Tree(k, d, u) && z.Keys !! u.Keys && Strangers(z, u)
    ensures Reaches(c, path) && Tree(n, ContentEdited(c, path, d), z + u)
    ensures Reaches(ContentEdited(c, path, d), path)
    ensures NodeAt(n, ContentEdited(c, path, d), z + u, path) == k
  {
    hide Separate, Strangers, Reached, ChildList;
    AroundReaches(n, c, path, k, z);
    FilledLinked(n, c, path, k, z, u);
    SeparateTogether(z, u);
    Filled(n, c, path, k, z, d, u);
    FilledReached(n, k, z, u);
  }

  lemma {:induction false} SmallerBelow(c: Content, path: seq<nat>)
    requires Reaches(c, path) && path != []
    ensures Size(ContentAt(c, path)) < Size(c)
    decreases |path|
  {
    if |path| > 1 {
      SmallerBelow(c.kids[path[0]], path[1..]);
    } else {
      assert path[1..] == [];
    }
  }

  lemma {:induction false} BelowIsFreed(n: Node, c: Content, t: Forest, path: seq<nat>, o: object)
    requires Matches(n, c, t) && Reaches(c, path)
    requires o in FreeOrder(NodeAt(n, c, t, path), ContentAt(c, path), t)
    ensures o in FreeOrder(n, c, t)
    decreases |path|
  {
    if path != [] {
      var i := path[0];
      BelowIsFreed(t[n][i], c.kids[i], t, path[1..], o);
      InAll(t[n], c.kids, t, i, o);
    }
  }

  // What is left around the tree of k when that is taken out.
  lemma {:induction false} LeftAround(n: Node, c: Content, path: seq<nat>, t: Forest)
    requires OneOwner(t) && Closed(t) && Matches(n, c, t) && Reaches(c, path)
    ensures var k, d := NodeAt(n, c, t, path), ContentAt(c, path);
            HoldsAround(n, c, path, k, Outside(t, SubTree(k, d, t)))
    decreases |path|
  {
    if path != [] {
      var k, d := NodeAt(n, c, t, path), ContentAt(c, path);
      var z := Outside(t, SubTree(k, d, t));
      var p := path[0];
      LeftAround(t[n][p], c.kids[p], path[1..], t);
      if n in FreeOrder(k, d, t) {
        var e := FreedWith(k, d, t, n);
        ContentUnique(n, c, e, t);
        SmallerBelow(c, path);
        assert false;
      }
      forall i | 0 <= i < |c.kids| && i != p ensures Matches(t[n][i], c.kids[i], z) {
        BesidePath(n, c, path, t, i);
      }
    }
  }

  lemma BesidePath(n: Node, c: Content, path: seq<nat>, t: Forest, i: nat)
    requires OneOwner(t) && Closed(t) && Matches(n, c, t) && path != [] && Reaches(c, path)
    requires i < |c.kids| && i != path[0]
    ensures var k, d := NodeAt(n, c, t, path), ContentAt(c, path);
            Matches(t[n][i], c.kids[i], Outside(t, SubTree(k, d, t)))
  {
    var k, d := NodeAt(n, c, t, path), ContentAt(c, path);
    var z, b := Outside(t, SubTree(k, d, t)), SubTree(t[n][i], c.kids[i], t);
    SubTreeClosed(t[n][i], c.kids[i], t);
    MatchesWithin(t[n][i], c.kids[i], t, b);
    forall m | m in b ensures m in z && z[m] == b[m] {
      SiblingsApart(n, c, t, i, path[0], m);
      if m in FreeOrder(k, d, t) {
        BelowIsFreed(t[n][path[0]], c.kids[path[0]], t, path[1..], m);
        assert false;
      }
    }
    MatchesInLarger(t[n][i], c.kids[i], b, z);
  }

  lemma LeftReached(n: Node, c: Content, t: Forest, path: seq<nat>, k: Node, v: Forest, z: Forest)
    requires Reached([n], t) && Closed(v) && k in v && (forall m | m in v :: m in t && v[m] == t[m])
    requires z == Outside(t, v) && HoldsAround(n, c, path, k, z)
    ensures Reached([n], z[k := []])
  {
    var w := z[k := []];
    AroundReaches(n, c, path, k, z);
    forall s: set<Node> | s <= w.Keys && Encloses(s, [n], w) ensures s == w.Keys {
      assert n in [n];
      assert Encloses(s + v.Keys, [n], t) by {
        forall m, j | m in s + v.Keys && m in t && j in t[m] ensures j in s + v.Keys {
          assert m in v ==> j in v[m];
          assert m !in v ==> m in z && w[m] == t[m];
        }
      }
      assert s + v.Keys <= t.Keys;
      assert z.Keys <= s;
      if path != [] {
        var p :| p in z && k in z[p];
        assert w[p] == z[p];
      }
      assert k in s;
    }
  }

  // The rest of a tree is around the tree of k.
  lemma RestIsAround(n: Node, c: Content, t: Forest, path: seq<nat>, k: Node, d: Content, v: Forest, z: Forest)
    requires Linked(t) && IsRoot(t, n) && Separate(t) && OneOwner(t) && Matches(k, d, t)
    requires v == SubTree(k, d, t) && k in v && z == Outside(t, v)
    requires HoldsAround(n, c, path, k, z) && Reached([n], z[k := []])
    ensures Around(n, c, path, k, z)
  {
    hide Reached, ChildList, HoldsAround, Matches, FreeOrder, Owned, ShareNothing, OwnsItself;
    if n != k {
      RootNotBelow(n, k, d, t);
    }
    forall m, j | m in z && j in z[m] ensures j in z || j == k {
      if j in v {
        EntersAtTop(t, k, d, m, j);
      }
    }
    forall m, j | m in z && j in z && m != j ensures Apart(z, m, j) {
      assert Apart(t, m, j);
    }
  }

  // Any node of a tree: its own tree, and what is around it.
  lemma Focus(n: Node, c: Content, t: Forest, path: seq<nat>) returns (v: Forest, z: Forest)
    requires Tree(n, c, t) && Reaches(c, path)
    ensures var k := NodeAt(n, c, t, path);
            && Tree(k, ContentAt(c, path), v) && Around(n, c, path, k, z)
            && v.Keys !! z.Keys && v.Keys + z.Keys == t.Keys && Strangers(v, z) && forall m | m in v :: v[m] == t[m]
  {
    hide Reached, ChildList, HoldsAround, Around, Owned, Reaches, FreeOrder;
    var k, d := NodeAt(n, c, t, path), ContentAt(c, path);
    v := SubTree(k, d, t);
    z := Outside(t, v);
    SeparateCanBeDeleted(n, c, t);
    SubTreeShape(k, d, t);
    SubTreeClosed(k, d, t);
    LeftAround(n, c, path, t);
    LeftReached(n, c, t, path, k, v, z);
    RestIsAround(n, c, t, path, k, d, v, z);
  }
}
