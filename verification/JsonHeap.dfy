/** The linked nodes of a JSON tree: sibling chains through next and prev, below a child pointer. */
module JsonHeap {
  import opened CText
  import opened JsonTree

  datatype Kind = KindFalse | KindTrue | KindNull | KindNumber | KindString | KindArray | KindObject

  type CString = s: Text | NulFree(s)

  // A block holding a C string.
  class StringBlock {
    const text: CString

    constructor (text: CString)
      ensures this.text == text
    {
      this.text := text;
    }
  }

  // cJSON_strdup, which must not be given a freed block.
  method Strdup(s: StringBlock, ghost freed: seq<object>) returns (t: StringBlock)
    requires s !in freed
    ensures fresh(t) && t.text == s.text
  {
    t := new StringBlock(s.text);
  }

  // The fields of a node other than its links.
  datatype Data = Data(kind: Kind, isReference: bool, nameIsConst: bool, mantissa: int, exponent: int,
                       valuestring: StringBlock?, name: StringBlock?)

  class Node {
    var next: Node?
    var prev: Node?
    var child: Node?
    var data: Data

    // All fields zero.
    constructor ()
      ensures next == null && prev == null && child == null
      ensures data == Data(KindFalse, false, false, 0, 0, null, null)
    {
      next, prev, child := null, null, null;
      data := Data(KindFalse, false, false, 0, 0, null, null);
    }
  }

  // The nodes of a tree or of several, each with its children in order.
  type Forest = map<Node, seq<Node>>

  ghost function Head(ks: seq<Node>): Node? {
    if ks == [] then null else ks[0]
  }

  ghost function Last(ks: seq<Node>): Node? {
    if ks == [] then null else ks[|ks| - 1]
  }

  // Sibling i of ks points at its neighbours; the ends point nowhere.
  ghost predicate Siblings(ks: seq<Node>)
    reads ks`next, ks`prev
  {
    && (forall i {:trigger ks[i].next} | 0 <= i < |ks| :: ks[i].next == if i + 1 < |ks| then ks[i + 1] else null)
    && (forall i {:trigger ks[i].prev} | 0 <= i < |ks| :: ks[i].prev == if i > 0 then ks[i - 1] else null)
  }

  // No node is its own sibling at another place.
  lemma {:induction false} SiblingsDistinct(ks: seq<Node>, i: nat, j: nat)
    requires Siblings(ks) && i < j < |ks|
    ensures ks[i] != ks[j]
  {
    assert ks[j].prev == ks[j - 1];
    if i == 0 {
      assert ks[i].prev == null;
    } else {
      assert ks[i].prev == ks[i - 1];
      SiblingsDistinct(ks, i - 1, j - 1);
    }
  }

  // The child list of n is ks, doubly linked.
  ghost predicate ChildList(n: Node, ks: seq<Node>)
    reads n`child, ks`next, ks`prev
  {
    n.child == Head(ks) && Siblings(ks)
  }

  // No child of m is one of n.
  ghost predicate Apart(t: Forest, m: Node, n: Node)
    requires m in t && n in t
  {
    forall k | k in t[m] :: k !in t[n]
  }

  // Every child list of the forest is well-formed, and no node is in two of them.
  ghost predicate Linked(t: Forest)
    reads t.Keys`child, t.Keys`next, t.Keys`prev
  {
    && (forall n, k | n in t && k in t[n] :: k in t)
    && (forall n {:trigger ChildList(n, t[n])} | n in t :: ChildList(n, t[n]))
    && (forall m, n {:trigger Apart(t, m, n)} | m in t && n in t && m != n :: Apart(t, m, n))
  }

  ghost predicate IsRoot(t: Forest, k: Node) {
    k in t && forall n | n in t :: k !in t[n]
  }

  datatype Option<+T> = None | Some(value: T)

  // What the fields say, with strings by content.
  datatype Own = Own(kind: Kind, isReference: bool, nameIsConst: bool, mantissa: int, exponent: int,
                     valuestring: Option<Text>, name: Option<Text>)

  function TextOf(b: StringBlock?): Option<Text> {
    if b == null then None else Some(b.text)
  }

  function OwnOf(d: Data): Own {
    Own(d.kind, d.isReference, d.nameIsConst, d.mantissa, d.exponent, TextOf(d.valuestring), TextOf(d.name))
  }

  // What a node and its descendants hold, without the links.
  datatype Content = Content(own: Own, kids: seq<Content>)

  ghost predicate Matches(n: Node, c: Content, t: Forest)
    reads t.Keys`data
    decreases c
  {
    && n in t && OwnOf(n.data) == c.own && |t[n]| == |c.kids|
    && forall i | 0 <= i < |c.kids| :: Matches(t[n][i], c.kids[i], t)
  }

  lemma OwnHeld(n: Node, c: Content, u: Forest)
    requires Matches(n, c, u)
    ensures c.own == OwnOf(n.data)
  {}

  lemma {:induction false} MatchesInLarger(n: Node, c: Content, t: Forest, u: Forest)
    requires Matches(n, c, t) && forall m | m in t :: m in u && u[m] == t[m]
    ensures Matches(n, c, u)
    decreases c
  {
    forall i | 0 <= i < |c.kids| ensures Matches(u[n][i], c.kids[i], u) {
      MatchesInLarger(t[n][i], c.kids[i], t, u);
    }
  }

  ghost function Size(c: Content): nat
    decreases c
  {
    1 + SizeAll(c.kids)
  }

  ghost function SizeAll(cs: seq<Content>): (s: nat)
    ensures forall i | 0 <= i < |cs| :: Size(cs[i]) <= s
    decreases cs
  {
    if cs == [] then 0 else Size(cs[0]) + SizeAll(cs[1..])
  }

  lemma {:induction false} ContentUnique(n: Node, c: Content, d: Content, t: Forest)
    requires Matches(n, c, t) && Matches(n, d, t)
    ensures c == d
    decreases c
  {
    forall i | 0 <= i < |c.kids| ensures c.kids[i] == d.kids[i] {
      ContentUnique(t[n][i], c.kids[i], d.kids[i], t);
    }
    assert c.kids == d.kids;
  }

  // Children ks of a parent outside t, each the root of a tree of t.
  ghost predicate Grown(parent: Node, ks: seq<Node>, t: Forest)
    reads parent`child, ks`next, ks`prev, t.Keys`child, t.Keys`next, t.Keys`prev
  {
    parent !in t && Linked(t) && ChildList(parent, ks) && forall k | k in ks :: IsRoot(t, k)
  }

  lemma Merge(t: Forest, u: Forest)
    requires Linked(t) && Linked(u) && t.Keys !! u.Keys
    ensures Linked(t + u)
    ensures forall k | IsRoot(t, k) || IsRoot(u, k) :: IsRoot(t + u, k)
  {
    var w := t + u;
    forall n, k | n in w && k in w[n]
      ensures k in w && (k in t <==> n in t)
    {
      assert if n in u then k in u[n] && k in u else k in t[n] && k in t;
    }
    forall m, n | m in w && n in w && m != n
      ensures Apart(w, m, n)
    {
      assert m in u && n in u ==> Apart(u, m, n);
      assert m in t && n in t ==> Apart(t, m, n);
      forall k | k in w[m] ensures k !in w[n] {
        assert k in t <==> m in t;
        assert k in w[n] ==> (k in t <==> n in t);
      }
    }
  }

  // Links newchild behind last, the final child of parent.
  method Link(parent: Node, last: Node?, newchild: Node, ghost ks: seq<Node>, ghost t: Forest)
    requires last == Last(ks) && Grown(parent, ks, t)
    requires newchild !in t && newchild.next == null && newchild.prev == null
    modifies parent`child, newchild`prev
    modifies (if last == null then {} else {last})`next
    ensures ChildList(parent, ks + [newchild]) && Linked(t)
  {
    forall i | 0 <= i < |ks| ensures ks[i] in t.Keys && IsRoot(t, ks[i]) {
      assert ks[i] in ks;
    }
    forall i | 0 <= i < |ks| - 1 ensures ks[i] != last {
      SiblingsDistinct(ks, i, |ks| - 1);
    }
    if last != null {
      assert last == ks[|ks| - 1];
      last.next, newchild.prev := newchild, last;
    } else {
      parent.child := newchild;
    }
    assert Linked(t) by {
      forall n | n in t ensures ChildList(n, t[n]) {
        assert last != null ==> last !in t[n];
      }
    }
    SiblingsOfExtended(ks, newchild);
  }

  // A linked child whose own tree is complete.
  lemma Settle(parent: Node, ks: seq<Node>, newchild: Node, t: Forest, u: Forest)
    requires ChildList(parent, ks + [newchild]) && Linked(t) && Linked(u) && t.Keys !! u.Keys
    requires parent !in t && parent !in u && IsRoot(u, newchild) && forall k | k in ks :: IsRoot(t, k)
    ensures Grown(parent, ks + [newchild], t + u)
  {
    Merge(t, u);
  }

  // Links the root newchild of u behind last.
  method LinkLast(parent: Node, last: Node?, newchild: Node, ghost ks: seq<Node>, ghost t: Forest, ghost u: Forest)
    requires last == Last(ks) && Grown(parent, ks, t)
    requires Linked(u) && IsRoot(u, newchild) && newchild.next == null && newchild.prev == null
    requires t.Keys !! u.Keys && parent !in u
    modifies parent`child, newchild`prev
    modifies (if last == null then {} else {last})`next
    ensures Grown(parent, ks + [newchild], t + u)
  {
    assert newchild in u.Keys;
    assert last != null ==> last in ks && last in t.Keys;
    Link(parent, last, newchild, ks, t);
    assert Linked(u) by {
      forall n | n in u ensures ChildList(n, u[n]) {
        assert newchild !in u[n];
        assert last != null ==> last !in u[n];
      }
    }
    Settle(parent, ks, newchild, t, u);
  }

  lemma SiblingsOfExtended(ks: seq<Node>, k: Node)
    requires forall i {:trigger ks[i].prev} | 0 <= i < |ks| :: ks[i].prev == if i > 0 then ks[i - 1] else null
    requires forall i {:trigger ks[i].next} | 0 <= i < |ks| :: ks[i].next == if i + 1 < |ks| then ks[i + 1] else k
    requires k.next == null && k.prev == Last(ks)
    ensures Siblings(ks + [k])
  {
    var all := ks + [k];
    forall i {:trigger all[i].next} | 0 <= i < |all|
      ensures all[i].next == if i + 1 < |all| then all[i + 1] else null
    {
      assert i < |ks| ==> all[i] == ks[i];
    }
    forall i {:trigger all[i].prev} | 0 <= i < |all|
      ensures all[i].prev == if i > 0 then all[i - 1] else null
    {
      assert i < |ks| ==> all[i] == ks[i];
    }
  }

  // The tree of a parent whose children are all in place.
  lemma Rooted(parent: Node, ks: seq<Node>, t: Forest)
    requires Grown(parent, ks, t)
    ensures Linked(t[parent := ks]) && IsRoot(t[parent := ks], parent)
  {
    var w := t[parent := ks];
    forall m, n | m in w && n in w && m != n ensures Apart(w, m, n) {
      assert m in t && n in t ==> Apart(t, m, n);
      assert forall k | k in ks :: IsRoot(t, k);
    }
  }

  // The nodes ks hold the first of cs.
  ghost predicate MatchAll(ks: seq<Node>, cs: seq<Content>, u: Forest)
    reads u.Keys`data
  {
    |ks| <= |cs| && forall i | 0 <= i < |ks| :: Matches(ks[i], cs[i], u)
  }

  lemma MatchAllInLarger(ks: seq<Node>, cs: seq<Content>, u: Forest, w: Forest)
    requires MatchAll(ks, cs, u) && forall m | m in u :: m in w && w[m] == u[m]
    ensures MatchAll(ks, cs, w)
  {
    forall i | 0 <= i < |ks| ensures Matches(ks[i], cs[i], w) {
      MatchesInLarger(ks[i], cs[i], u, w);
    }
  }

  lemma MatchAllGrows(ks: seq<Node>, k: Node, cs: seq<Content>, u: Forest, v: Forest)
    requires MatchAll(ks, cs, u) && |ks| < |cs| && Matches(k, cs[|ks|], v) && u.Keys !! v.Keys
    ensures MatchAll(ks + [k], cs, u + v)
  {
    MatchAllInLarger(ks, cs, u, u + v);
    MatchesInLarger(k, cs[|ks|], v, u + v);
  }

  lemma MatchAllRooted(n: Node, ks: seq<Node>, c: Content, u: Forest)
    requires MatchAll(ks, c.kids, u) && |ks| == |c.kids| && Grown(n, ks, u) && OwnOf(n.data) == c.own
    ensures Matches(n, c, u[n := ks]) && Linked(u[n := ks]) && IsRoot(u[n := ks], n)
  {
    Rooted(n, ks, u);
    MatchAllInLarger(ks, c.kids, u, u[n := ks]);
  }

  function Strings(d: Data): set<StringBlock> {
    (if d.valuestring == null then {} else {d.valuestring}) + (if d.name == null then {} else {d.name})
  }

  predicate ShareNothing(d: Data, e: Data) {
    Strings(d) !! Strings(e)
  }

  // No reference, and two strings if any.
  predicate OwnsItself(d: Data) {
    !d.isReference && (d.valuestring == null || d.valuestring != d.name)
  }

  // Each node has strings of its own, and none is a reference.
  ghost predicate Separate(u: Forest)
    reads u.Keys`data
  {
    && (forall n | n in u :: OwnsItself(n.data))
    && (forall m, n {:trigger ShareNothing(m.data, n.data)} | m in u && n in u && m != n ::
          ShareNothing(m.data, n.data))
  }

  ghost predicate Strangers(u: Forest, v: Forest)
    reads u.Keys`data, v.Keys`data
  {
    forall m, n {:trigger ShareNothing(m.data, n.data)} | m in u && n in v :: ShareNothing(m.data, n.data)
  }

  ghost predicate StrangerTo(d: Data, u: Forest)
    reads u.Keys`data
  {
    forall k {:trigger ShareNothing(d, k.data)} | k in u :: ShareNothing(d, k.data)
  }

  lemma SeparateTogether(u: Forest, v: Forest)
    requires Separate(u) && Separate(v) && Strangers(u, v) && u.Keys !! v.Keys
    ensures Separate(u + v)
  {
    var w := u + v;
    forall m, n | m in w && n in w && m != n ensures ShareNothing(m.data, n.data) {
      assert m in u && n in v ==> ShareNothing(m.data, n.data);
      assert m in v && n in u ==> ShareNothing(n.data, m.data);
    }
  }

  lemma SeparateRooted(n: Node, ks: seq<Node>, u: Forest)
    requires OwnsItself(n.data) && Separate(u) && n !in u && StrangerTo(n.data, u)
    ensures Separate(u[n := ks])
  {
    assert forall k | k in u :: ShareNothing(n.data, k.data);
  }

  // Nothing that a node of t consists of has been freed.
  ghost predicate Live(t: Forest, freed: seq<object>)
    reads t.Keys`data
  {
    forall n | n in t :: n !in freed && forall b | b in Strings(n.data) :: b !in freed
  }

  // s holds the chain ks and everything below its members that is not behind a reference item.
  ghost predicate Encloses(s: set<Node>, ks: seq<Node>, t: Forest) {
    (forall k | k in ks :: k in s) && forall n, k | n in s && n in t && k in t[n] :: k in s
  }

  // Every node of u is one of ks or below one of them.
  ghost predicate Reached(ks: seq<Node>, u: Forest) {
    (forall k | k in ks :: k in u) && forall s: set<Node> | s <= u.Keys && Encloses(s, ks, u) :: s == u.Keys
  }

  lemma ReachedTogether(ks: seq<Node>, k: Node, u: Forest, v: Forest)
    requires Reached(ks, u) && Reached([k], v) && u.Keys !! v.Keys
    requires forall n, m | n in u && m in u[n] :: m in u
    requires forall n, m | n in v && m in v[n] :: m in v
    ensures Reached(ks + [k], u + v)
  {
    var w := u + v;
    forall s: set<Node> | s <= w.Keys && Encloses(s, ks + [k], w) ensures s == w.Keys {
      var s0, s1 := s * u.Keys, s * v.Keys;
      assert forall m | m in ks :: m in ks + [k];
      assert k in ks + [k];
      assert Encloses(s0, ks, u) by {
        forall n, m | n in s0 && n in u && m in u[n] ensures m in s0 {
          assert w[n] == u[n];
        }
      }
      assert Encloses(s1, [k], v) by {
        forall n, m | n in s1 && n in v && m in v[n] ensures m in s1 {
          assert w[n] == v[n];
        }
      }
    }
  }

  lemma ReachedRooted(n: Node, ks: seq<Node>, u: Forest)
    requires Reached(ks, u) && n !in u
    requires forall m, k | m in u && k in u[m] :: k in u
    ensures Reached([n], u[n := ks])
  {
    var w := u[n := ks];
    forall s: set<Node> | s <= w.Keys && Encloses(s, [n], w) ensures s == w.Keys {
      assert n in [n];
      assert Encloses(s - {n}, ks, u) by {
        assert forall k | k in ks :: k in w[n];
        forall m, k | m in s - {n} && m in u && k in u[m] ensures k in s - {n} {
          assert w[m] == u[m];
        }
      }
    }
  }

  // The children linked below newitem so far, ending with last, hold the first of cs.
  ghost predicate Built(newitem: Node, last: Node?, ks: seq<Node>, cs: seq<Content>, u: Forest)
    reads newitem`child, ks`next, ks`prev, u.Keys
  {
    last == Last(ks) && Grown(newitem, ks, u) && MatchAll(ks, cs, u) && Separate(u) && Reached(ks, u)
  }

  // The complete tree of n, which holds c: well linked, each node with strings of its own, and nothing beside it.
  ghost predicate Tree(n: Node, c: Content, u: Forest)
    reads u.Keys
  {
    Linked(u) && IsRoot(u, n) && Separate(u) && Matches(n, c, u) && Reached([n], u)
  }

  // A linked child whose own tree is complete joins the children before it.
  lemma Adopt(newitem: Node, ks: seq<Node>, k: Node, cs: seq<Content>, c: Content, u: Forest, v: Forest)
    requires ChildList(newitem, ks + [k]) && Linked(u) && MatchAll(ks, cs, u) && |ks| == |cs|
    requires newitem !in u && newitem !in v && u.Keys !! v.Keys && forall m | m in ks :: IsRoot(u, m)
    requires Tree(k, c, v) && Separate(u) && Reached(ks, u) && Strangers(u, v)
    ensures Built(newitem, k, ks + [k], cs + [c], u + v)
  {
    hide Separate, Reached, Strangers, Matches, Grown;
    Settle(newitem, ks, k, u, v);
    SeparateTogether(u, v);
    MatchAllGrows(ks, k, cs + [c], u, v);
    ReachedTogether(ks, k, u, v);
  }

  lemma Alone(n: Node)
    requires n.child == null && OwnsItself(n.data)
    ensures Tree(n, Content(OwnOf(n.data), []), map[n := []])
  {}

  // The tree of a parent whose children are all in place.
  lemma Complete(n: Node, last: Node?, ks: seq<Node>, cs: seq<Content>, u: Forest)
    requires Built(n, last, ks, cs, u) && |ks| == |cs| && OwnsItself(n.data) && StrangerTo(n.data, u)
    ensures Tree(n, Content(OwnOf(n.data), cs), u[n := ks])
  {
    hide Separate, Reached, StrangerTo, Matches, MatchAll;
    SeparateRooted(n, ks, u);
    MatchAllRooted(n, ks, Content(OwnOf(n.data), cs), u);
    ReachedRooted(n, ks, u);
  }

  // The value that some content stands for.
  ghost predicate Denotes(c: Content, v: Json)
    decreases v, 1
  {
    match v
    case Null => c.own.kind == KindNull && c.kids == []
    case False => c.own.kind == KindFalse && c.kids == []
    case True => c.own.kind == KindTrue && c.kids == []
    case Number(m, e) => c.own.kind == KindNumber && c.own.mantissa == m && c.own.exponent == e && c.kids == []
    case String(s) => c.own.kind == KindString && c.own.valuestring == Some(s) && c.kids == []
    case Array(items) => c.own.kind == KindArray && DenotesItems(c.kids, items)
    case Object(members) => c.own.kind == KindObject && DenotesMembers(c.kids, members)
  }

  ghost predicate DenotesItems(cs: seq<Content>, items: seq<Json>)
    decreases items, 0
  {
    |cs| == |items| && forall i | 0 <= i < |items| :: Denotes(cs[i], items[i])
  }

  ghost predicate DenotesMembers(cs: seq<Content>, members: seq<Member>)
    decreases members, 0
  {
    |cs| == |members|
    && forall i | 0 <= i < |members| :: cs[i].own.name == Some(members[i].name) && Denotes(cs[i], members[i].value)
  }

  // The tree below item, which stands for v.
  ghost predicate Represents(item: Node, v: Json, c: Content, u: Forest)
    reads u.Keys
  {
    Tree(item, c, u) && Denotes(c, v)
  }

  lemma DenotesOneMoreItem(cs: seq<Content>, vs: seq<Json>, c: Content, v: Json)
    requires DenotesItems(cs, vs) && Denotes(c, v)
    ensures DenotesItems(cs + [c], vs + [v])
  {
    forall i | 0 <= i <= |vs| ensures Denotes((cs + [c])[i], (vs + [v])[i]) {
      assert i < |vs| ==> Denotes(cs[i], vs[i]);
    }
  }

  lemma DenotesOneMoreMember(cs: seq<Content>, ms: seq<Member>, c: Content, m: Member)
    requires DenotesMembers(cs, ms) && c.own.name == Some(m.name) && Denotes(c, m.value)
    ensures DenotesMembers(cs + [c], ms + [m])
  {
    forall i | 0 <= i <= |ms|
      ensures (cs + [c])[i].own.name == Some((ms + [m])[i].name) && Denotes((cs + [c])[i], (ms + [m])[i].value)
    {
      assert i < |ms| ==> Denotes(cs[i], ms[i].value);
    }
  }
}
