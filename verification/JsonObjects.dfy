/** Object members by name: lookups take the first member whose name matches but for case. */
module JsonObjects {
  import opened CText
  import opened JsonHeap
  import opened JsonDelete
  import opened JsonLists

  function ToLower(c: char): char {
    if 'A' <= c <= 'Z' then (c as int + 32) as char else c
  }

  predicate SameText(s: Text, t: Text) {
    |s| == |t| && forall i | 0 <= i < |s| :: ToLower(s[i]) == ToLower(t[i])
  }

  const SMALL_LETTERS: Text := "abcdefghijklmnopqrstuvwxyz"
  const CAPITAL_LETTERS: Text := "ABCDEFGHIJKLMNOPQRSTUVWXYZ"

  // The same character, or the two cases of one letter.
  predicate SameLetter(a: char, b: char) {
    a == b || exists i | 0 <= i < 26 ::
      (a == SMALL_LETTERS[i] && b == CAPITAL_LETTERS[i]) || (a == CAPITAL_LETTERS[i] && b == SMALL_LETTERS[i])
  }

  // Letter i of each alphabet, by its code.
  lemma Letters(i: nat)
    requires i < 26
    ensures CAPITAL_LETTERS[i] == (65 + i) as char && SMALL_LETTERS[i] == (97 + i) as char
  {}

  predicate CaseOf(a: char, b: char) {
    'A' <= a <= 'Z' && b as int == a as int + 32
  }

  lemma LowerCodes(a: char, b: char)
    ensures ToLower(a) == ToLower(b) <==> a == b || CaseOf(a, b) || CaseOf(b, a)
  {}

  lemma CasesOfLetter(a: char, b: char)
    ensures CaseOf(a, b) <==> exists i | 0 <= i < 26 :: a == CAPITAL_LETTERS[i] && b == SMALL_LETTERS[i]
  {
    if CaseOf(a, b) {
      Letters(a as int - 65);
    } else if i :| 0 <= i < 26 && a == CAPITAL_LETTERS[i] && b == SMALL_LETTERS[i] {
      Letters(i);
    }
  }

  lemma SameLower(a: char, b: char)
    ensures ToLower(a) == ToLower(b) <==> SameLetter(a, b)
  {
    hide CaseOf, ToLower;
    LowerCodes(a, b);
    CasesOfLetter(a, b);
    CasesOfLetter(b, a);
  }

  // As long, with the same letters at the same places.
  predicate Alike(s: Text, t: Text) {
    |s| == |t| && forall i | 0 <= i < |s| :: SameLetter(s[i], t[i])
  }

  lemma SameTextIs(s: Text, t: Text)
    ensures SameText(s, t) <==> Alike(s, t)
  {
    forall i | 0 <= i < |s| && i < |t| ensures ToLower(s[i]) == ToLower(t[i]) <==> SameLetter(s[i], t[i]) {
      SameLower(s[i], t[i]);
    }
  }

  // A missing name equals only a missing name.
  predicate SameName(s: Option<Text>, t: Option<Text>) {
    match (s, t)
    case (None, None) => true
    case (Some(a), Some(b)) => SameText(a, b)
    case _ => false
  }

  // Zero when the names are the same.
  method StrCaseCmp(s1: StringBlock?, s2: StringBlock?) returns (d: int)
    ensures d == 0 <==> SameName(TextOf(s1), TextOf(s2))
    ensures d == 0 <==> (s1 == null && s2 == null) || (s1 != null && s2 != null && Alike(s1.text, s2.text))
  {
    if s1 != null && s2 != null {
      SameTextIs(s1.text, s2.text);
    }
    if s1 == null {
      return if s2 == null then 0 else 1;
    }
    if s2 == null {
      return 1;
    }
    var a, b, i := s1.text, s2.text, 0;
    while ToLower(At(a, i)) == ToLower(At(b, i))
      invariant i <= |a| && i <= |b| && forall j | 0 <= j < i :: ToLower(a[j]) == ToLower(b[j])
      decreases |a| - i
    {
      if At(a, i) == '\0' {
        return 0;
      }
      i := i + 1;
    }
    d := ToLower(At(a, i)) as int - ToLower(At(b, i)) as int;
  }

  // The name of k is that name, but for the case of letters.
  ghost predicate Bears(k: Node, name: StringBlock?)
    reads k`data
  {
    var own := k.data.name;
    (own == null && name == null) || (own != null && name != null && Alike(own.text, name.text))
  }

  lemma BearsName(k: Node, name: StringBlock?)
    ensures Bears(k, name) <==> SameName(TextOf(k.data.name), TextOf(name))
  {
    if k.data.name != null && name != null {
      SameTextIs(k.data.name.text, name.text);
    }
  }

  // The place of the first child with the name s, or behind the last child.
  ghost function FirstNamed(ks: seq<Node>, s: Option<Text>): (r: nat)
    reads ks`data
    ensures r <= |ks| && (r < |ks| ==> SameName(TextOf(ks[r].data.name), s))
    ensures forall i | 0 <= i < r :: !SameName(TextOf(ks[i].data.name), s)
  {
    if ks == [] || SameName(TextOf(ks[0].data.name), s) then 0 else FirstNamed(ks[1..], s) + 1
  }

  // The walk the by-name operations share: the child found, and its place.
  method Find(parent: Node, name: StringBlock?, ghost ks: seq<Node>) returns (c: Node?, i: nat)
    requires ChildList(parent, ks)
    ensures i == FirstNamed(ks, TextOf(name)) && c == Child(ks, i)
  {
    c, i := parent.child, 0;
    while c != null
      invariant i <= |ks| && c == Child(ks, i)
      invariant forall j | 0 <= j < i :: !SameName(TextOf(ks[j].data.name), TextOf(name))
      decreases |ks| - i
    {
      var d := StrCaseCmp(c.data.name, name);
      if d == 0 {
        return;
      }
      assert ks[i].next == Child(ks, i + 1);
      c, i := c.next, i + 1;
    }
  }

  method GetObjectItem(parent: Node, name: StringBlock?, ghost ks: seq<Node>) returns (c: Node?)
    requires ChildList(parent, ks)
    ensures c == Child(ks, FirstNamed(ks, TextOf(name)))
    ensures c == null ==> forall k | k in ks :: !Bears(k, name)
    ensures c != null ==>
              exists i | 0 <= i < |ks| :: c == ks[i] && Bears(c, name) && forall j | 0 <= j < i :: !Bears(ks[j], name)
  {
    ghost var i: nat;
    forall k | k in ks ensures Bears(k, name) <==> SameName(TextOf(k.data.name), TextOf(name)) {
      BearsName(k, name);
    }
    c, i := Find(parent, name, ks);
  }

  method DetachItemFromObject(parent: Node, name: StringBlock?, ghost ks: seq<Node>) returns (c: Node?)
    requires ChildList(parent, ks)
    modifies parent`child, ks`next, ks`prev
    ensures c == Child(ks, FirstNamed(ks, TextOf(name)))
    ensures ChildList(parent, Removed(ks, FirstNamed(ks, TextOf(name))))
    ensures c != null ==> c.next == null && c.prev == null
  {
    var i;
    c, i := Find(parent, name, ks);
    if c != null {
      c := DetachItemFromArray(parent, i, ks);
    }
  }

  method DeleteItemFromObject(memory: Memory, parent: Node, name: StringBlock?,
                              ghost ks: seq<Node>, ghost content: Content, ghost t: Forest)
    requires ChildList(parent, ks)
    requires Disposable(memory, ks, FirstNamed(ks, TextOf(name)), {parent} + Members(ks), content, t)
    modifies memory, parent`child, ks`next, ks`prev
    ensures var i := old(FirstNamed(ks, TextOf(name)));
            && ChildList(parent, Removed(ks, i))
            && memory.freed == old(memory.freed) + FreedAt(ks, i, content, t)
  {
    var c, i := Find(parent, name, ks);
    if c != null {
      DeleteItemFromArray(memory, parent, i, ks, content, t);
    }
  }

  // The new item takes the name and the place of the first member with that name.
  method ReplaceItemInObject(memory: Memory, parent: Node, name: StringBlock, newitem: Node,
                             ghost ks: seq<Node>, ghost content: Content, ghost t: Forest)
    requires ChildList(parent, ks) && newitem !in ks && name !in memory.freed
    requires Disposable(memory, ks, FirstNamed(ks, Some(name.text)), {parent, newitem} + Members(ks), content, t)
    modifies memory, parent`child, ks`next, ks`prev, newitem`next, newitem`prev, newitem`data
    ensures var i := old(FirstNamed(ks, Some(name.text)));
            && ChildList(parent, Updated(ks, i, newitem))
            && memory.freed == old(memory.freed) + FreedAt(ks, i, content, t)
            && (i < |ks| ==> newitem.data.name != null && fresh(newitem.data.name)
                             && newitem.data.name.text == name.text)
            && newitem.data
               == old(newitem.data).(name := if i < |ks| then newitem.data.name else old(newitem.data).name)
  {
    hide FirstNamed, ChildList, Matches, OwnedBelow, NoDuplicates, FreeOrder, SameName;
    var c, i := Find(parent, name, ks);
    if c != null {
      var copy := Strdup(name, memory.freed);
      newitem.data := newitem.data.(name := copy);
      assert Disposable(memory, ks, i, {parent, newitem} + Members(ks), content, t);
      ReplaceItemInArray(memory, parent, i, newitem, ks, content, t);
    }
  }

  // The old name that AddItemToObject frees, constant or not.
  ghost function NameDropped(d: Data): seq<object> {
    if d.name == null then [] else [d.name]
  }

  // The old name that AddItemToObjectCS frees.
  ghost function OwnNameDropped(d: Data): seq<object> {
    if d.nameIsConst then [] else NameDropped(d)
  }

  // AddItemToObject frees a string that the item does not own exactly if the item has a constant name.
  lemma DropsConstantName(d: Data)
    requires OwnsItself(d)
    ensures (forall b | b in NameDropped(d) :: b in OwnStrings(d)) <==> !(d.nameIsConst && d.name != null)
    ensures forall b | b in OwnNameDropped(d) :: b in OwnStrings(d)
  {
    if d.name != null && d.nameIsConst {
      assert d.name in NameDropped(d);
    }
  }

  // A name is still there when the old name has been freed exactly if it is another block; for the second
  // function a constant name of the item itself is one that stays.
  lemma NameSurvives(d: Data, name: StringBlock, freed: seq<object>)
    ensures name !in freed + NameDropped(d) <==> name !in freed && name != d.name
    ensures name !in freed + OwnNameDropped(d) <==> name !in freed && (d.nameIsConst || name != d.name)
  {
    assert d.name != null ==> d.name in NameDropped(d) && (!d.nameIsConst ==> d.name in OwnNameDropped(d));
  }

  // The first step of AddItemToObject, after which the given name is copied.
  method DropName(memory: Memory, item: Node)
    requires item.data.name != null ==> item.data.name !in memory.freed
    modifies memory
    ensures memory.freed == old(memory.freed) + NameDropped(item.data)
  {
    if item.data.name != null {
      memory.Free(item.data.name);
    }
  }

  // The first steps of AddItemToObjectCS: the name kept may be the one just freed.
  method TakeName(memory: Memory, item: Node, name: StringBlock)
    requires item.data.name != null ==> item.data.name !in memory.freed
    modifies memory, item`data
    ensures memory.freed == old(memory.freed) + OwnNameDropped(old(item.data))
    ensures item.data == old(item.data).(name := name, nameIsConst := true)
    ensures name in memory.freed <==>
              name in old(memory.freed) || (name == old(item.data.name) && !old(item.data.nameIsConst))
  {
    if !item.data.nameIsConst && item.data.name != null {
      memory.Free(item.data.name);
    }
    item.data := item.data.(name := name, nameIsConst := true);
  }

  // An instance: an item added under its own name. cJSON_AddItemToObject is about to copy a freed string.
  method OwnNameIsGone() returns (memory: Memory, name: StringBlock, item: Node)
    ensures fresh(memory) && fresh(item) && item.data.name == name && name in memory.freed
  {
    memory := new Memory();
    name := new StringBlock("k");
    item := new Node();
    item.data := item.data.(kind := KindNull, name := name);
    DropName(memory, item);
    assert name in NameDropped(item.data);
  }

  // The same for cJSON_AddItemToObjectCS, which keeps the freed string.
  method OwnNameIsKept() returns (memory: Memory, name: StringBlock, item: Node)
    ensures fresh(memory) && fresh(item) && item.data.name == name && name in memory.freed
  {
    memory := new Memory();
    name := new StringBlock("k");
    item := new Node();
    item.data := item.data.(kind := KindNull, name := name);
    TakeName(memory, item, name);
  }

  // The item stays marked if it was, although its name is now a copy of its own.
  method AddItemToObject(memory: Memory, parent: Node, name: StringBlock, item: Node?, ghost ks: seq<Node>)
    requires ChildList(parent, ks)
    requires item != null ==> item !in ks && item.next == null && (ks == [] ==> item.prev == null)
    requires item != null && item.data.name != null ==> item.data.name !in memory.freed
    requires item != null ==> name !in memory.freed + NameDropped(item.data)
    modifies memory, parent`child, ks`next
    modifies (if item == null then {} else {item})`prev, (if item == null then {} else {item})`data
    ensures ChildList(parent, if item == null then ks else ks + [item])
    ensures item != null ==> item.data.name != null && fresh(item.data.name) && item.data.name.text == name.text
                             && item.data == old(item.data).(name := item.data.name)
    ensures memory.freed == old(memory.freed) + (if item == null then [] else NameDropped(old(item.data)))
  {
    if item == null {
      return;
    }
    DropName(memory, item);
    var copy := Strdup(name, memory.freed);
    item.data := item.data.(name := copy);
    AddItemToArray(parent, item, ks);
  }

  // The caller's own string becomes the name; it is not freed here.
  method AddItemToObjectCS(memory: Memory, parent: Node, name: StringBlock, item: Node?, ghost ks: seq<Node>)
    requires ChildList(parent, ks)
    requires item != null ==> item !in ks && item.next == null && (ks == [] ==> item.prev == null)
    requires item != null && item.data.name != null ==> item.data.name !in memory.freed
    requires item != null ==> name !in memory.freed + OwnNameDropped(item.data)
    modifies memory, parent`child, ks`next
    modifies (if item == null then {} else {item})`prev, (if item == null then {} else {item})`data
    ensures ChildList(parent, if item == null then ks else ks + [item])
    ensures item != null ==> item.data == old(item.data).(name := name, nameIsConst := true)
    ensures memory.freed == old(memory.freed) + (if item == null then [] else OwnNameDropped(old(item.data)))
    ensures item != null ==> name !in memory.freed
  {
    if item == null {
      return;
    }
    TakeName(memory, item, name);
    AddItemToArray(parent, item, ks);
  }

  // A nameless alias of item: it shares the children and the value string, and owns neither.
  method CreateReference(item: Node) returns (ref: Node)
    ensures fresh(ref) && ref.next == null && ref.prev == null && ref.child == item.child
    ensures ref.data == item.data.(name := null, isReference := true)
  {
    ref := new Node();
    ref.child, ref.data := item.child, item.data.(name := null, isReference := true);
  }

  method AddItemReferenceToArray(parent: Node, item: Node, ghost ks: seq<Node>) returns (ref: Node)
    requires ChildList(parent, ks)
    modifies parent`child, ks`next
    ensures fresh(ref) && ref.child == old(item.child) && ref.data == old(item.data).(name := null, isReference := true)
    ensures ChildList(parent, ks + [ref])
  {
    ref := CreateReference(item);
    AddItemToArray(parent, ref, ks);
  }

  method AddItemReferenceToObject(memory: Memory, parent: Node, name: StringBlock, item: Node, ghost ks: seq<Node>)
    returns (ref: Node)
    requires ChildList(parent, ks) && name !in memory.freed
    modifies memory, parent`child, ks`next
    ensures fresh(ref) && ref.child == old(item.child) && ChildList(parent, ks + [ref])
    ensures ref.data.name != null && fresh(ref.data.name) && ref.data.name.text == name.text
    ensures ref.data == old(item.data).(name := ref.data.name, isReference := true)
    ensures memory.freed == old(memory.freed)
  {
    ref := CreateReference(item);
    AddItemToObject(memory, parent, name, ref, ks);
  }
}
