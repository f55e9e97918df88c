/** cJSON_Delete: what it frees, in which order, and that nothing is freed twice or read after it is freed. */
module JsonDelete {
  import opened CText
  import opened JsonHeap

  predicate NoDuplicates<T(==)>(s: seq<T>) {
    forall i, j | 0 <= i < j < |s| :: s[i] != s[j]
  }

  type Log = s: seq<object> | NoDuplicates(s)

  // The blocks given back so far, oldest first.
  class Memory {
    var freed: Log

    constructor ()
      ensures freed == []
    {
      freed := [];
    }

    method Free(b: object)
      requires b !in freed
      modifies this
      ensures freed == old(freed) + [b]
    {
      freed := freed + [b];
    }
  }

  lemma NotBefore<T>(s: seq<T>, x: T, all: seq<T>)
    requires NoDuplicates(all) && s + [x] <= all
    ensures x !in s
  {
    assert all[|s|] == x;
    assert forall i | 0 <= i < |s| :: s[i] == all[i];
  }

  // The strings a node owns: a reference item owns no value, and a constant name is not owned.
  ghost function OwnStrings(d: Data): seq<object> {
    (if !d.isReference && d.valuestring != null then [d.valuestring] else [])
    + (if !d.nameIsConst && d.name != null then [d.name] else [])
  }

  ghost predicate Chain(ks: seq<Node>)
    reads ks`next
  {
    forall i {:trigger ks[i].next} | 0 <= i < |ks| :: ks[i].next == if i + 1 < |ks| then ks[i + 1] else null
  }

  // The forest of owned nodes: what a reference item points at is not below it.
  ghost predicate Owned(t: Forest)
    reads t.Keys
  {
    && (forall n, k | n in t && k in t[n] :: k in t)
    && (forall n {:trigger Chain(t[n])} | n in t :: Chain(t[n]))
    && (forall n | n in t :: if n.data.isReference then t[n] == [] else n.child == Head(t[n]))
  }

  ghost predicate MatchList(ks: seq<Node>, cs: seq<Content>, t: Forest)
    reads t.Keys`data
  {
    |ks| == |cs| && MatchAll(ks, cs, t)
  }

  // Children first, then the node's strings, then the node.
  ghost function FreeOrder(n: Node, c: Content, t: Forest): seq<object>
    requires Matches(n, c, t)
    reads t.Keys`data
    decreases c
  {
    FreeOrderAll(t[n], c.kids, t) + OwnStrings(n.data) + [n]
  }

  ghost function FreeOrderAll(ks: seq<Node>, cs: seq<Content>, t: Forest): seq<object>
    requires MatchList(ks, cs, t)
    reads t.Keys`data
    decreases cs
  {
    if ks == [] then [] else FreeOrder(ks[0], cs[0], t) + FreeOrderAll(ks[1..], cs[1..], t)
  }

  lemma FreeOrderStep(ks: seq<Node>, cs: seq<Content>, t: Forest, i: nat)
    requires MatchList(ks, cs, t) && i < |ks|
    ensures MatchList(ks[i..], cs[i..], t) && MatchList(ks[i + 1..], cs[i + 1..], t) && Matches(ks[i], cs[i], t)
    ensures FreeOrderAll(ks[i..], cs[i..], t) == FreeOrder(ks[i], cs[i], t) + FreeOrderAll(ks[i + 1..], cs[i + 1..], t)
  {
    assert ks[i..][1..] == ks[i + 1..] && cs[i..][1..] == cs[i + 1..];
  }

  lemma Part<T>(a: seq<T>, b: seq<T>)
    requires NoDuplicates(a + b)
    ensures NoDuplicates(a)
  {
    forall i, j | 0 <= i < j < |a| ensures a[i] != a[j] {
      assert (a + b)[i] == a[i] && (a + b)[j] == a[j];
    }
  }

  lemma Unfreed(freed: seq<object>, n: Node, c: Content, t: Forest)
    requires Matches(n, c, t) && NoDuplicates(freed + FreeOrder(n, c, t))
    ensures n !in freed
  {
    var order := FreeOrder(n, c, t);
    assert (freed + order)[|freed + order| - 1] == n;
    assert forall i | 0 <= i < |freed| :: freed[i] == (freed + order)[i];
  }

  lemma NextInOrder(freed: seq<object>, ks: seq<Node>, cs: seq<Content>, t: Forest, i: nat, all: seq<object>)
    requires MatchList(ks, cs, t) && i < |ks| && MatchList(ks[i..], cs[i..], t)
    requires NoDuplicates(all) && freed + FreeOrderAll(ks[i..], cs[i..], t) == all
    ensures MatchList(ks[i + 1..], cs[i + 1..], t) && Matches(ks[i], cs[i], t)
    ensures ks[i] !in freed && NoDuplicates(freed + FreeOrder(ks[i], cs[i], t))
    ensures freed + FreeOrder(ks[i], cs[i], t) + FreeOrderAll(ks[i + 1..], cs[i + 1..], t) == all
  {
    FreeOrderStep(ks, cs, t, i);
    var order, rest := FreeOrder(ks[i], cs[i], t), FreeOrderAll(ks[i + 1..], cs[i + 1..], t);
    Assoc(freed, order, rest);
    Part(freed + order, rest);
    Unfreed(freed, ks[i], cs[i], t);
  }

  // cJSON_Delete on the sibling chain ks.
  method Delete(memory: Memory, head: Node?, ghost ks: seq<Node>, ghost cs: seq<Content>, ghost t: Forest)
    requires head == Head(ks) && Chain(ks) && Owned(t) && MatchList(ks, cs, t)
    requires NoDuplicates(memory.freed + FreeOrderAll(ks, cs, t))
    modifies memory
    ensures memory.freed == old(memory.freed) + FreeOrderAll(ks, cs, t)
    decreases cs
  {
    hide Owned, Matches, FreeOrder, NoDuplicates;
    ghost var all := memory.freed + FreeOrderAll(ks, cs, t);
    var c := head;
    ghost var i := 0;
    assert ks[0..] == ks && cs[0..] == cs;
    while c != null
      invariant i <= |ks| && c == (if i < |ks| then ks[i] else null)
      invariant MatchList(ks[i..], cs[i..], t) && memory.freed + FreeOrderAll(ks[i..], cs[i..], t) == all
      decreases |ks| - i
    {
      NextInOrder(memory.freed, ks, cs, t, i, all);
      assert c !in memory.freed;
      var next := c.next;
      DeleteItem(memory, c, cs[i], t);
      c, i := next, i + 1;
    }
  }

  // One turn of the loop, with the node's children before it.
  method DeleteItem(memory: Memory, c: Node, ghost content: Content, ghost t: Forest)
    requires Owned(t) && Matches(c, content, t)
    requires NoDuplicates(memory.freed + FreeOrder(c, content, t))
    modifies memory
    ensures memory.freed == old(memory.freed) + FreeOrder(c, content, t)
    decreases content
  {
    hide NoDuplicates, OwnStrings;
    ghost var all, before := memory.freed + FreeOrder(c, content, t), memory.freed;
    ghost var below := FreeOrderAll(t[c], content.kids, t);
    Unfreed(memory.freed, c, content, t);
    assert c !in memory.freed;
    Assoc4(before, below, OwnStrings(c.data), [c]);
    Part(before + below, OwnStrings(c.data) + [c]);
    if !c.data.isReference && c.child != null {
      Delete(memory, c.child, t[c], content.kids, t);
    }
    assert memory.freed == before + below;
    FreeStrings(memory, c, all);
    NotBefore(memory.freed, c, all);
    memory.Free(c);
  }

  method FreeStrings(memory: Memory, c: Node, ghost all: seq<object>)
    requires NoDuplicates(all) && memory.freed + (OwnStrings(c.data) + [c]) == all
    modifies memory
    ensures memory.freed == old(memory.freed) + OwnStrings(c.data)
  {
    if !c.data.isReference && c.data.valuestring != null {
      NotBefore(memory.freed, c.data.valuestring, all);
      memory.Free(c.data.valuestring);
    }
    if !c.data.nameIsConst && c.data.name != null {
      NotBefore(memory.freed, c.data.name, all);
      memory.Free(c.data.name);
    }
  }

  lemma {:induction false} FreedIsEnclosed(ks: seq<Node>, cs: seq<Content>, t: Forest, s: set<Node>, b: Node)
    requires MatchList(ks, cs, t) && Encloses(s, ks, t) && b in FreeOrderAll(ks, cs, t)
    ensures b in s
    decreases cs
  {
    if b in FreeOrder(ks[0], cs[0], t) {
      if b != ks[0] {
        FreedIsEnclosed(t[ks[0]], cs[0].kids, t, s, b);
      }
    } else {
      FreedIsEnclosed(ks[1..], cs[1..], t, s, b);
    }
  }

  lemma {:induction false} ChainIsFreed(ks: seq<Node>, cs: seq<Content>, t: Forest, k: Node)
    requires MatchList(ks, cs, t) && k in ks
    ensures k in FreeOrderAll(ks, cs, t)
  {
    if k != ks[0] {
      ChainIsFreed(ks[1..], cs[1..], t, k);
    }
  }

  lemma {:induction false} ChildIsFreed(ks: seq<Node>, cs: seq<Content>, t: Forest, n: Node, k: Node)
    requires MatchList(ks, cs, t) && n in FreeOrderAll(ks, cs, t) && n in t && k in t[n]
    ensures k in FreeOrderAll(ks, cs, t)
    decreases cs
  {
    if n in FreeOrder(ks[0], cs[0], t) {
      if n == ks[0] {
        ChainIsFreed(t[n], cs[0].kids, t, k);
      } else {
        ChildIsFreed(t[ks[0]], cs[0].kids, t, n, k);
      }
    } else {
      ChildIsFreed(ks[1..], cs[1..], t, n, k);
    }
  }

  // Exactly the nodes owned by the chain are freed: those in every set closed under ownership.
  lemma FreesTheOwned(ks: seq<Node>, cs: seq<Content>, t: Forest, b: Node)
    requires MatchList(ks, cs, t)
    ensures b in FreeOrderAll(ks, cs, t) <==> forall s: set<Node> | Encloses(s, ks, t) :: b in s
  {
    var order := FreeOrderAll(ks, cs, t);
    if b in order {
      forall s: set<Node> | Encloses(s, ks, t) ensures b in s {
        FreedIsEnclosed(ks, cs, t, s, b);
      }
    } else {
      var s := set o | o in order && o is Node :: o as Node;
      assert Encloses(s, ks, t) by {
        forall k | k in ks ensures k in s {
          ChainIsFreed(ks, cs, t, k);
        }
        forall n, k | n in s && n in t && k in t[n] ensures k in s {
          ChildIsFreed(ks, cs, t, n, k);
        }
      }
    }
  }

  // A string is freed when a freed node owns it.
  lemma {:induction false} FreesOwnedStrings(ks: seq<Node>, cs: seq<Content>, t: Forest, b: StringBlock)
    requires MatchList(ks, cs, t)
    ensures b in FreeOrderAll(ks, cs, t) <==> exists n: Node :: n in FreeOrderAll(ks, cs, t) && b in OwnStrings(n.data)
    decreases cs
  {
    if ks != [] {
      FreesOwnedStrings(t[ks[0]], cs[0].kids, t, b);
      FreesOwnedStrings(ks[1..], cs[1..], t, b);
      assert ks[0] in FreeOrder(ks[0], cs[0], t);
    }
  }

  ghost predicate Precedes(s: seq<object>, a: object, b: object) {
    exists i, j | 0 <= i < j < |s| :: s[i] == a && s[j] == b
  }

  lemma PrecedesWithin(a: seq<object>, s: seq<object>, b: seq<object>, x: object, y: object)
    requires Precedes(s, x, y)
    ensures Precedes(a + s + b, x, y)
  {
    var i, j :| 0 <= i < j < |s| && s[i] == x && s[j] == y;
    var w := a + s + b;
    assert w[|a| + i] == x && w[|a| + j] == y;
  }

  // Every node comes behind its children and the strings it owns.
  lemma {:induction false} PartsFirst(ks: seq<Node>, cs: seq<Content>, t: Forest, n: Node, o: object)
    requires MatchList(ks, cs, t) && n in FreeOrderAll(ks, cs, t) && n in t
    requires o in OwnStrings(n.data) || (o is Node && o as Node in t[n])
    ensures Precedes(FreeOrderAll(ks, cs, t), o, n)
    decreases cs
  {
    hide Precedes;
    var k, c, rest := ks[0], cs[0], FreeOrderAll(ks[1..], cs[1..], t);
    var below, own := FreeOrderAll(t[k], c.kids, t), OwnStrings(k.data);
    if n in below {
      PartsFirst(t[k], c.kids, t, n, o);
      PrecedesWithin([], below, own + [k] + rest, o, n);
      Assoc4(below, own, [k], rest);
      Assoc(own, [k], rest);
      assert [] + below == below;
    } else if n in rest {
      PartsFirst(ks[1..], cs[1..], t, n, o);
      PrecedesWithin(FreeOrder(k, c, t), rest, [], o, n);
      assert FreeOrder(k, c, t) + rest + [] == FreeOrder(k, c, t) + rest;
    } else {
      if o is Node && o as Node in t[k] {
        ChainIsFreed(t[k], c.kids, t, o as Node);
      }
      TopLast(below, own, k, o, rest);
    }
  }

  lemma TopLast(below: seq<object>, own: seq<object>, k: Node, o: object, rest: seq<object>)
    requires o in below || o in own
    ensures Precedes(below + own + [k] + rest, o, k)
  {
    var w := below + own + [k] + rest;
    assert o in below + own;
    var i :| 0 <= i < |below + own| && (below + own)[i] == o;
    assert w[i] == o && w[|below + own|] == k;
  }

  // What is held only through reference items is not freed, as those have no owned children.
  lemma SparesReferenced(ks: seq<Node>, cs: seq<Content>, t: Forest, m: Node)
    requires MatchList(ks, cs, t) && Owned(t)
    requires m !in ks && forall n | n in t && !n.data.isReference :: m !in t[n]
    ensures m !in FreeOrderAll(ks, cs, t)
  {
    var order := FreeOrderAll(ks, cs, t);
    var s := (set o | o in order && o is Node :: o as Node) - {m};
    assert Encloses(s, ks, t) by {
      forall k | k in ks ensures k in s {
        ChainIsFreed(ks, cs, t, k);
      }
      forall n, k | n in s && n in t && k in t[n] ensures k in s {
        ChildIsFreed(ks, cs, t, n, k);
      }
    }
    if m in order {
      FreedIsEnclosed(ks, cs, t, s, m);
    }
  }

  // The tree of one root.
  lemma FreeOrderOfOne(k: Node, c: Content, t: Forest)
    requires Matches(k, c, t)
    ensures MatchList([k], [c], t) && FreeOrderAll([k], [c], t) == FreeOrder(k, c, t)
  {
    assert MatchList([k], [c], t);
    assert FreeOrderAll([k][1..], [c][1..], t) == [];
  }
}
