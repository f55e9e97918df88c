/** What the edits of a child list mean for the value the tree stands for. */
module JsonEdits {
  import opened CText
  import opened JsonTree
  import opened JsonHeap
  import opened JsonLists
  import opened JsonObjects

  // A smaller tree cannot contain n, so a new child list of n leaves it alone.
  lemma {:induction false} Elsewhere(m: Node, d: Content, n: Node, c: Content, js: seq<Node>, t: Forest)
    requires Matches(n, c, t) && Matches(m, d, t) && Size(d) < Size(c)
    ensures Matches(m, d, t[n := js])
    decreases d
  {
    if m == n {
      ContentUnique(n, c, d, t);
    }
    forall i | 0 <= i < |d.kids| ensures Matches(t[m][i], d.kids[i], t[n := js]) {
      Elsewhere(t[m][i], d.kids[i], n, c, js, t);
    }
  }

  // n gets the child list js, of its own former children and of roots of u.
  lemma Relisted(n: Node, c: Content, t: Forest, u: Forest, js: seq<Node>, ds: seq<Content>)
    requires Matches(n, c, t) && t.Keys !! u.Keys && |js| == |ds|
    requires forall i | 0 <= i < |js| :: Kept(js[i], ds[i], c, t) || Matches(js[i], ds[i], u)
    ensures Matches(n, Content(c.own, ds), (t + u)[n := js])
  {
    var w := (t + u)[n := js];
    forall i | 0 <= i < |js| ensures Matches(js[i], ds[i], w) {
      if Kept(js[i], ds[i], c, t) {
        Elsewhere(js[i], ds[i], n, c, js, t);
        MatchesInLarger(js[i], ds[i], t[n := js], w);
      } else {
        MatchesInLarger(js[i], ds[i], u, w);
      }
    }
  }

  ghost predicate Kept(k: Node, d: Content, c: Content, t: Forest)
    reads t.Keys`data
  {
    Matches(k, d, t) && Size(d) < Size(c)
  }

  lemma ChildKept(n: Node, c: Content, t: Forest, i: nat)
    requires Matches(n, c, t) && i < |t[n]|
    ensures Kept(t[n][i], c.kids[i], c, t)
  {}

  lemma InsertChild(n: Node, c: Content, t: Forest, k: Node, d: Content, u: Forest, i: nat)
    requires Matches(n, c, t) && Matches(k, d, u) && t.Keys !! u.Keys
    ensures Matches(n, Content(c.own, Inserted(c.kids, i, d)), (t + u)[n := Inserted(t[n], i, k)])
  {
    var js, ds := Inserted(t[n], i, k), Inserted(c.kids, i, d);
    forall m | 0 <= m < |js| ensures Kept(js[m], ds[m], c, t) || Matches(js[m], ds[m], u) {
      if i >= |t[n]| {
        if m < |t[n]| { ChildKept(n, c, t, m); }
      } else if m < i {
        ChildKept(n, c, t, m);
      } else if m > i {
        ChildKept(n, c, t, m - 1);
      }
    }
    Relisted(n, c, t, u, js, ds);
  }

  lemma ItemInserted(cs: seq<Content>, items: seq<Json>, d: Content, v: Json, i: nat)
    requires DenotesItems(cs, items) && Denotes(d, v)
    ensures DenotesItems(Inserted(cs, i, d), Inserted(items, i, v))
  {
    hide Denotes;
    forall m | 0 <= m < |Inserted(items, i, v)| ensures Denotes(Inserted(cs, i, d)[m], Inserted(items, i, v)[m]) {
      if i < |items| {
        assert m > i ==> Denotes(cs[m - 1], items[m - 1]);
        assert m < i ==> Denotes(cs[m], items[m]);
      } else {
        assert m < |items| ==> Denotes(cs[m], items[m]);
      }
    }
  }

  lemma RemovedLengths<S, T>(a: seq<S>, b: seq<T>, i: nat)
    requires |a| == |b|
    ensures |Removed(a, i)| == |Removed(b, i)|
  {}

  lemma ItemRemoved(cs: seq<Content>, items: seq<Json>, i: nat)
    requires DenotesItems(cs, items)
    ensures DenotesItems(Removed(cs, i), Removed(items, i))
  {
    hide Denotes, Removed;
    RemovedLengths(cs, items, i);
    forall m | 0 <= m < |Removed(items, i)| ensures Denotes(Removed(cs, i)[m], Removed(items, i)[m]) {
      RemovedAt(items, i, m);
      RemovedAt(cs, i, m);
    }
  }

  lemma MemberRemoved(cs: seq<Content>, members: seq<Member>, i: nat)
    requires DenotesMembers(cs, members)
    ensures DenotesMembers(Removed(cs, i), Removed(members, i))
  {
    hide Denotes, Removed;
    RemovedLengths(cs, members, i);
    forall m | 0 <= m < |Removed(members, i)|
      ensures Removed(cs, i)[m].own.name == Some(Removed(members, i)[m].name)
      ensures Denotes(Removed(cs, i)[m], Removed(members, i)[m].value)
    {
      RemovedAt(members, i, m);
      RemovedAt(cs, i, m);
    }
  }

  lemma InsertItem(n: Node, c: Content, items: seq<Json>, t: Forest, k: Node, d: Content, v: Json, u: Forest, i: nat)
    requires Matches(n, c, t) && Denotes(c, Array(items)) && Matches(k, d, u) && Denotes(d, v) && t.Keys !! u.Keys
    ensures var e := Content(c.own, Inserted(c.kids, i, d));
            Matches(n, e, (t + u)[n := Inserted(t[n], i, k)]) && Denotes(e, Array(Inserted(items, i, v)))
  {
    hide Matches, Inserted, DenotesItems;
    InsertChild(n, c, t, k, d, u, i);
    ItemInserted(c.kids, items, d, v, i);
  }

  lemma RemoveItem(n: Node, c: Content, items: seq<Json>, t: Forest, i: nat)
    requires Matches(n, c, t) && Denotes(c, Array(items))
    ensures var e := Content(c.own, Removed(c.kids, i));
            Matches(n, e, t[n := Removed(t[n], i)]) && Denotes(e, Array(Removed(items, i)))
  {
    hide Matches, Removed, DenotesItems;
    RemoveChild(n, c, t, i);
    ItemRemoved(c.kids, items, i);
  }

  lemma RemoveChild(n: Node, c: Content, t: Forest, i: nat)
    requires Matches(n, c, t)
    ensures Matches(n, Content(c.own, Removed(c.kids, i)), t[n := Removed(t[n], i)])
  {
    var js, ds := Removed(t[n], i), Removed(c.kids, i);
    forall m | 0 <= m < |js| ensures Kept(js[m], ds[m], c, t) {
      ChildKept(n, c, t, if m < i then m else m + 1);
    }
    Relisted(n, c, t, map[], js, ds);
    assert t + map[] == t;
  }

  lemma UpdateItem(n: Node, c: Content, items: seq<Json>, t: Forest, k: Node, d: Content, v: Json, u: Forest, i: nat)
    requires Matches(n, c, t) && Denotes(c, Array(items)) && Matches(k, d, u) && Denotes(d, v) && t.Keys !! u.Keys
    ensures var e := Content(c.own, Updated(c.kids, i, d));
            Matches(n, e, (t + u)[n := Updated(t[n], i, k)]) && Denotes(e, Array(Updated(items, i, v)))
  {
    UpdateChild(n, c, t, k, d, u, i);
  }

  lemma UpdateChild(n: Node, c: Content, t: Forest, k: Node, d: Content, u: Forest, i: nat)
    requires Matches(n, c, t) && Matches(k, d, u) && t.Keys !! u.Keys
    ensures Matches(n, Content(c.own, Updated(c.kids, i, d)), (t + u)[n := Updated(t[n], i, k)])
  {
    var js, ds := Updated(t[n], i, k), Updated(c.kids, i, d);
    forall m | 0 <= m < |js| ensures Kept(js[m], ds[m], c, t) || Matches(js[m], ds[m], u) {
      if m != i {
        ChildKept(n, c, t, m);
      }
    }
    Relisted(n, c, t, u, js, ds);
  }

  // The place of the first member with the name s, or behind the last member.
  function FirstMember(members: seq<Member>, s: Text): nat {
    if members == [] || SameText(members[0].name, s) then 0 else FirstMember(members[1..], s) + 1
  }

  // It is the first one whose name is as long and has the same letters, in either case.
  lemma {:induction false} FirstMemberIs(members: seq<Member>, s: Text)
    ensures var i := FirstMember(members, s);
            && i <= |members| && (i < |members| ==> Alike(members[i].name, s))
            && forall j | 0 <= j < i :: !Alike(members[j].name, s)
  {
    if members != [] {
      SameTextIs(members[0].name, s);
      FirstMemberIs(members[1..], s);
      var i := FirstMember(members, s);
      forall j | 0 <= j < i ensures !Alike(members[j].name, s) {
        assert j > 0 ==> members[j] == members[1..][j - 1];
      }
    }
  }

  // Looking a name up among the nodes finds the first member of the object with that name.
  lemma {:induction false} FindsFirstMember(ks: seq<Node>, cs: seq<Content>, members: seq<Member>, t: Forest, s: Text)
    requires |ks| == |cs| && MatchAll(ks, cs, t) && DenotesMembers(cs, members)
    ensures FirstNamed(ks, Some(s)) == FirstMember(members, s)
  {
    if ks != [] {
      assert Matches(ks[0], cs[0], t);
      FindsFirstMember(ks[1..], cs[1..], members[1..], t, s);
    }
  }

  lemma RemoveMember(n: Node, c: Content, members: seq<Member>, t: Forest, s: Text)
    requires Matches(n, c, t) && Denotes(c, Object(members))
    ensures var i := FirstMember(members, s);
            var e := Content(c.own, Removed(c.kids, i));
            && FirstNamed(t[n], Some(s)) == i
            && Matches(n, e, t[n := Removed(t[n], i)]) && Denotes(e, Object(Removed(members, i)))
  {
    FindsFirstMember(t[n], c.kids, members, t, s);
    hide Matches, Removed, DenotesMembers, FirstMember, FirstNamed;
    RemoveChild(n, c, t, FirstMember(members, s));
    MemberRemoved(c.kids, members, FirstMember(members, s));
  }

  lemma ReplaceMember(n: Node, c: Content, members: seq<Member>, t: Forest, k: Node, d: Content, v: Json, u: Forest,
                      s: Text)
    requires Matches(n, c, t) && Denotes(c, Object(members)) && t.Keys !! u.Keys
    requires Matches(k, d, u) && Denotes(d, v) && d.own.name == Some(s)
    ensures var i := FirstMember(members, s);
            var e := Content(c.own, Updated(c.kids, i, d));
            && FirstNamed(t[n], Some(s)) == i
            && Matches(n, e, (t + u)[n := Updated(t[n], i, k)])
            && Denotes(e, Object(Updated(members, i, Member(s, v))))
  {
    FindsFirstMember(t[n], c.kids, members, t, s);
    UpdateChild(n, c, t, k, d, u, FirstMember(members, s));
  }

  lemma AddMember(n: Node, c: Content, members: seq<Member>, t: Forest, k: Node, d: Content, v: Json, u: Forest,
                  s: Text)
    requires Matches(n, c, t) && Denotes(c, Object(members)) && t.Keys !! u.Keys
    requires Matches(k, d, u) && Denotes(d, v) && d.own.name == Some(s)
    ensures var e := Content(c.own, c.kids + [d]);
            Matches(n, e, (t + u)[n := t[n] + [k]]) && Denotes(e, Object(members + [Member(s, v)]))
  {
    InsertChild(n, c, t, k, d, u, |members|);
    DenotesOneMoreMember(c.kids, members, d, Member(s, v));
  }
}
