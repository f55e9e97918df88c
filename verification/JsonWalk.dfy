/** Walking over nodes by child and next: where the cursor stands, and what the nodes it meets stand for. */
module JsonWalk {
  import opened CText
  import opened JsonTree
  import opened JsonHeap

  // The child and next pointers follow the forest; as reference items share children, lists may overlap.
  ghost predicate Spans(t: Forest)
    reads t.Keys
  {
    && (forall n, k | n in t && k in t[n] :: k in t)
    && (forall n | n in t :: n.child == Head(t[n]))
    && (forall n, i {:trigger t[n][i].next} | n in t && 0 <= i < |t[n]| ::
          t[n][i].next == if i + 1 < |t[n]| then t[n][i + 1] else null)
  }

  // The sibling behind place i, if there is one.
  ghost function Place(list: seq<Node>, i: nat): Node? {
    if i < |list| then list[i] else null
  }

  lemma Advance(t: Forest, n: Node, i: nat)
    requires Spans(t) && n in t && i < |t[n]|
    ensures t[n][i].next == Place(t[n], i + 1)
  {}

  // cursor walks the child list of item and stands at place i, behind the last child it is null.
  ghost predicate AtChild(t: Forest, item: Node, i: nat, cursor: Node?)
    reads t.Keys
  {
    Spans(t) && item in t && cursor == Place(t[item], i)
  }

  lemma Begin(t: Forest, item: Node)
    requires Spans(t) && item in t
    ensures AtChild(t, item, 0, item.child)
  {}

  lemma Proceed(t: Forest, item: Node, i: nat, cursor: Node)
    requires AtChild(t, item, i, cursor)
    ensures i < |t[item]| && t[item][i] == cursor && AtChild(t, item, i + 1, cursor.next)
    ensures cursor.next != null <==> i + 1 < |t[item]|
  {
    Advance(t, item, i);
  }

  lemma AtEnd(t: Forest, item: Node, i: nat, cursor: Node?)
    requires AtChild(t, item, i, cursor)
    ensures cursor == null <==> i >= |t[item]|
  {}

  method CountChildren(item: Node, ghost t: Forest) returns (numentries: nat)
    requires Spans(t) && item in t
    ensures numentries == |t[item]|
  {
    hide Spans;
    var child := item.child;
    numentries := 0;
    Begin(t, item);
    while child != null
      invariant numentries <= |t[item]| && AtChild(t, item, numentries, child)
      decreases |t[item]| - numentries
    {
      Proceed(t, item, numentries, child);
      numentries, child := numentries + 1, child.next;
    }
  }

  // The nodes at and below n stand for v.
  ghost predicate Shows(n: Node, v: Json, t: Forest)
    reads t.Keys`data
    decreases v
  {
    n in t &&
    match v
    case Null => n.data.kind == KindNull
    case False => n.data.kind == KindFalse
    case True => n.data.kind == KindTrue
    case Number(m, e) => n.data.kind == KindNumber && n.data.mantissa == m && n.data.exponent == e
    case String(s) => n.data.kind == KindString && TextOf(n.data.valuestring) == Some(s)
    case Array(items) =>
      && n.data.kind == KindArray && |t[n]| == |items|
      && forall i | 0 <= i < |items| :: Shows(t[n][i], items[i], t)
    case Object(members) =>
      && n.data.kind == KindObject && |t[n]| == |members|
      && forall i | 0 <= i < |members| ::
           Shows(t[n][i], members[i].value, t) && TextOf(t[n][i].data.name) == Some(members[i].name)
  }

  lemma ShownLength(n: Node, items: seq<Json>, t: Forest)
    requires Shows(n, Array(items), t)
    ensures n in t && |t[n]| == |items|
  {}

  lemma MembersLength(n: Node, members: seq<Member>, t: Forest)
    requires Shows(n, Object(members), t)
    ensures n in t && |t[n]| == |members|
  {}

  lemma ShownItem(n: Node, items: seq<Json>, t: Forest, k: nat)
    requires Shows(n, Array(items), t) && k < |items|
    ensures n in t && |t[n]| == |items| && Shows(t[n][k], items[k], t)
  {}

  lemma ShownMember(n: Node, members: seq<Member>, t: Forest, k: nat)
    requires Shows(n, Object(members), t) && k < |members|
    ensures n in t && |t[n]| == |members| && Shows(t[n][k], members[k].value, t)
    ensures TextOf(t[n][k].data.name) == Some(members[k].name)
  {}

  lemma {:induction false} MatchShows(n: Node, c: Content, v: Json, t: Forest)
    requires Matches(n, c, t) && Denotes(c, v)
    ensures Shows(n, v, t)
    decreases v
  {
    match v {
      case Array(items) =>
        forall i | 0 <= i < |items| ensures Shows(t[n][i], items[i], t) {
          MatchShows(t[n][i], c.kids[i], items[i], t);
        }
      case Object(members) =>
        forall i | 0 <= i < |members|
          ensures Shows(t[n][i], members[i].value, t) && TextOf(t[n][i].data.name) == Some(members[i].name)
        {
          MatchShows(t[n][i], c.kids[i], members[i].value, t);
        }
      case _ =>
    }
  }

  // A tree that stands for a value can be walked, and shows that value.
  lemma TreeShows(n: Node, v: Json, c: Content, t: Forest)
    requires Represents(n, v, c, t)
    ensures Spans(t) && Shows(n, v, t)
  {
    MatchShows(n, c, v, t);
    forall m | m in t ensures m.child == Head(t[m]) {
      assert ChildList(m, t[m]);
    }
    forall m, i {:trigger t[m][i].next} | m in t && 0 <= i < |t[m]|
      ensures t[m][i].next == if i + 1 < |t[m]| then t[m][i + 1] else null
    {
      assert ChildList(m, t[m]);
    }
  }
}
