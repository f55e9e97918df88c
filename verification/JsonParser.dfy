/** The recursive-descent parser: a cursor moves through the text and nodes are linked into a tree. */
module JsonParser {
  import opened CText
  import opened JsonTree
  import opened JsonDelete
  import opened JsonHeap
  import opened JsonOwnership
  import opened JsonStringParser
  import Lang = JsonParse

  // The node owns its name.
  ghost predicate Owning(n: Node)
    reads n`data
  {
    !n.data.nameIsConst
  }

  // The cursor reports the outcome p of parsing text.
  ghost predicate Reports<T>(r: Cursor, p: Lang.Parse<T>, text: Text) {
    match p
    case Ok(_, rest) => r.Next? && r.pos <= |text| && text[r.pos..] == rest
    case Fail => r.Null?
    case BadEscape => r.Undefined?
  }

  method Skip(text: Text, pos: nat) returns (next: nat)
    requires pos <= |text|
    ensures pos <= next <= |text| && text[next..] == CText.Skip(text[pos..])
  {
    next := pos;
    while next < |text| && text[next] <= ' '
      invariant pos <= next <= |text| && CText.Skip(text[pos..]) == CText.Skip(text[next..])
    {
      assert text[next..][1..] == text[next + 1..];
      next := next + 1;
    }
  }

  method ReadDigits(text: Text, pos: nat, n: int) returns (m: int, next: nat)
    requires pos <= |text|
    ensures pos <= next <= |text| && TakeDigits(text[pos..], n) == (m, text[next..])
  {
    m, next := n, pos;
    while IsDigit(At(text, next))
      invariant pos <= next <= |text| && TakeDigits(text[pos..], n) == TakeDigits(text[next..], m)
      decreases |text| - next
    {
      assert text[next..][1..] == text[next + 1..];
      m, next := m * 10 + DigitValue(text[next]), next + 1;
    }
  }

  method ReadInteger(text: Text, pos: nat) returns (n: int, next: nat)
    requires pos <= |text|
    ensures next <= |text| && Lang.IntPart(text[pos..]) == (n, text[next..])
  {
    n, next := 0, pos;
    if At(text, next) == '0' {
      next := next + 1;
    }
    assert text[next..] == Lang.DropIf(text[pos..], '0');
    if '1' <= At(text, next) <= '9' {
      n, next := ReadDigits(text, next, n);
    }
  }

  // scale counts the fractional digits, downwards.
  method ReadFraction(text: Text, pos: nat, m: int) returns (n: int, scale: int, next: nat)
    requires pos <= |text|
    ensures next <= |text| && Lang.FracPart(text[pos..], m) == (n, scale, text[next..])
  {
    n, scale, next := m, 0, pos;
    if At(text, next) == '.' && IsDigit(At(text, next + 1)) {
      next := next + 1;
      ghost var s := text[next..];
      assert text[pos..][1..] == s;
      while IsDigit(At(text, next))
        invariant pos < next <= |text| && scale == pos + 1 - next
        invariant TakeDigits(s, m) == TakeDigits(text[next..], n)
        decreases |text| - next
      {
        assert text[next..][1..] == text[next + 1..];
        n, next, scale := n * 10 + DigitValue(text[next]), next + 1, scale - 1;
      }
    }
  }

  function Signed(sign: int, n: int): int {
    if sign < 0 then -n else n
  }

  lemma SignedProduct(sign: int, n: int)
    requires sign == 1 || sign == -1
    ensures sign * n == n * sign == Signed(sign, n)
  {}

  method ReadExponent(text: Text, pos: nat) returns (subscale: int, signsubscale: int, next: nat)
    requires pos <= |text|
    ensures signsubscale == 1 || signsubscale == -1
    ensures next <= |text| && Lang.ExpPart(text[pos..]) == (Signed(signsubscale, subscale), text[next..])
  {
    subscale, signsubscale, next := 0, 1, pos;
    if At(text, next) == 'e' || At(text, next) == 'E' {
      ghost var s := text[pos..];
      next := next + 1;
      assert text[next..] == s[1..];
      if At(text, next) == '+' {
        next := next + 1;
      } else if At(text, next) == '-' {
        signsubscale, next := -1, next + 1;
      }
      assert text[next..] == if signsubscale == -1 then s[2..] else Lang.DropIf(s[1..], '+');
      subscale, next := ReadDigits(text, next, subscale);
    }
  }

  method ParseNumber(item: Node, text: Text, pos: nat) returns (next: nat)
    requires pos <= |text|
    modifies item`data
    ensures next <= |text|
    ensures Lang.ParseNumber(text[pos..]) == Lang.Ok(Number(item.data.mantissa, item.data.exponent), text[next..])
    ensures item.data
         == old(item.data).(kind := KindNumber, mantissa := item.data.mantissa, exponent := item.data.exponent)
  {
    hide Lang.IntPart, Lang.FracPart, Lang.ExpPart, TakeDigits;
    var n, sign, scale, subscale, signsubscale := 0, 1, 0, 0, 1;
    next := pos;
    if At(text, next) == '-' {
      sign, next := -1, next + 1;
    }
    assert text[next..] == Lang.DropIf(text[pos..], '-');
    n, next := ReadInteger(text, next);
    n, scale, next := ReadFraction(text, next, n);
    subscale, signsubscale, next := ReadExponent(text, next);
    SignedProduct(sign, n);
    SignedProduct(signsubscale, subscale);
    item.data := item.data.(kind := KindNumber, mantissa := sign * n, exponent := scale + subscale * signsubscale);
  }

  method ParseString(item: Node, text: Text, pos: nat) returns (r: Cursor)
    requires pos <= |text| && NulFree(text)
    modifies item`data
    ensures Reports(r, if StartsWith(text[pos..], '"') then Lang.ScanString(text[pos + 1..]) else Lang.Fail, text)
    ensures !r.Next? ==> item.data == old(item.data)
    ensures r.Next? ==>
              && item.data.valuestring != null && fresh(item.data.valuestring)
              && item.data == old(item.data).(kind := KindString, valuestring := item.data.valuestring)
              && item.data.valuestring.text == Lang.ScanString(text[pos + 1..]).value
  {
    if At(text, pos) != '"' {
      return Cursor.Null;
    }
    var len;
    r, len := MeasureLiteral(text, pos + 1);
    if r.Undefined? {
      return;
    }
    var out, n;
    r, out, n := DecodeLiteral(text, pos + 1, len);
    if r.Next? {
      ScanNulFree(text[pos + 1..]);
      var block := new StringBlock(out[..n]);
      item.data := item.data.(kind := KindString, valuestring := block);
    }
  }

  // parse_value for an item without children; u is the tree that hangs below it afterwards.
  method ParseValue(item: Node, text: Text, pos: nat) returns (r: Cursor, ghost c: Content, ghost u: Forest)
    requires pos <= |text| && NulFree(text) && item.child == null
    requires !item.data.isReference && item.data.valuestring == null
    modifies item`data, item`child
    ensures Reports(r, Lang.ParseValue(text[pos..]), text)
    ensures r.Next? ==> Represents(item, Lang.ParseValue(text[pos..]).value, c, u)
    ensures r.Null? ==> Tree(item, c, u)
    ensures item.data.name == old(item.data.name) && item.data.nameIsConst == old(item.data.nameIsConst)
    ensures forall n | n in u :: n == item || (fresh(n) && Owning(n) && fresh(Strings(n.data)))
    ensures fresh(Strings(item.data) - Strings(old(item.data)))
    decreases |text| - pos, 1
  {
    hide Tree, Lang.ScanString, Lang.ParseNumber, Lang.ParseItems, Lang.ParseMembers, CText.Skip;
    ghost var s := text[pos..];
    c, u := Content(OwnOf(item.data), []), map[item := []];
    if "null" <= text[pos..] {
      item.data := item.data.(kind := KindNull);
      r := Next(pos + 4);
    } else if "false" <= text[pos..] {
      item.data := item.data.(kind := KindFalse);
      r := Next(pos + 5);
    } else if "true" <= text[pos..] {
      item.data := item.data.(kind := KindTrue);
      r := Next(pos + 4);
    } else if At(text, pos) == '"' {
      assert s[1..] == text[pos + 1..];
      r := ParseString(item, text, pos);
    } else if At(text, pos) == '-' || IsDigit(At(text, pos)) {
      var next := ParseNumber(item, text, pos);
      r := Next(next);
    } else if At(text, pos) == '[' {
      r, c, u := ParseArray(item, text, pos);
      return;
    } else if At(text, pos) == '{' {
      r, c, u := ParseObject(item, text, pos);
      return;
    } else {
      r := Cursor.Null;
    }
    c := Content(OwnOf(item.data), []);
    Alone(item);
  }

  // What follows an item, after blanks: more items, or the closing bracket.
  function ItemsTail(s: Text): Lang.Parse<seq<Json>> {
    if StartsWith(s, ',') then Lang.ParseItems(CText.Skip(s[1..]))
    else if StartsWith(s, ']') then Lang.Ok([], s[1..])
    else Lang.Fail
  }

  function AfterItems(vs: seq<Json>, p: Lang.Parse<seq<Json>>): Lang.Parse<seq<Json>> {
    match p
    case Ok(more, rest) => Lang.Ok(vs + more, rest)
    case _ => p
  }

  lemma ItemsUnfold(s: Text)
    ensures Lang.ParseItems(s) == match Lang.ParseValue(s)
      case Ok(v, rest) => AfterItems([v], ItemsTail(CText.Skip(rest)))
      case Fail => Lang.Fail
      case BadEscape => Lang.BadEscape
  {
    var p := Lang.ParseValue(s);
    assert p.Ok? ==> [p.value] + [] == [p.value];
  }

  lemma AfterTwice(vs: seq<Json>, v: Json, p: Lang.Parse<seq<Json>>)
    ensures AfterItems(vs, AfterItems([v], p)) == AfterItems(vs + [v], p)
  {
    if p.Ok? {
      assert vs + ([v] + p.value) == vs + [v] + p.value;
    }
  }

  // child is linked behind the finished children of item, and its own tree is still to come.
  ghost predicate Attached(item: Node, child: Node, ks: seq<Node>, cs: seq<Content>, u: Forest)
    reads item`child, (ks + [child])`next, (ks + [child])`prev, u.Keys
  {
    && ChildList(item, ks + [child]) && Linked(u) && MatchAll(ks, cs, u) && Separate(u) && |ks| == |cs|
    && item !in u && child !in u && child != item && Reached(ks, u) && forall k | k in ks :: IsRoot(u, k)
  }

  // A zeroed node linked as the last child of item.
  method NewChild(item: Node, last: Node?, ghost ks: seq<Node>, ghost cs: seq<Content>, ghost u: Forest)
    returns (child: Node)
    requires Built(item, last, ks, cs, u) && |ks| == |cs|
    modifies item`child, u.Keys`next
    ensures fresh(child) && child.child == null && child.data == Data(KindFalse, false, false, 0, 0, null, null)
    ensures Attached(item, child, ks, cs, u)
  {
    child := new Node();
    assert last != null ==> last in ks && last in u.Keys;
    Link(item, last, child, ks, u);
  }

  // Parses the value of an attached child.
  method ParseInto(item: Node, child: Node, text: Text, pos: nat,
                   ghost ks: seq<Node>, ghost cs: seq<Content>, ghost u: Forest)
    returns (r: Cursor, ghost c: Content, ghost w: Forest)
    requires pos <= |text| && NulFree(text) && Attached(item, child, ks, cs, u)
    requires child.child == null && !child.data.isReference && child.data.valuestring == null
    requires StrangerTo(child.data, u)
    modifies child`data, child`child
    ensures Reports(r, Lang.ParseValue(text[pos..]), text)
    ensures !r.Undefined? ==> Built(item, child, ks + [child], cs + [c], w)
    ensures r.Next? ==> Denotes(c, Lang.ParseValue(text[pos..]).value)
    ensures r.Next? ==> c.own.name == TextOf(old(child.data.name))
    ensures child.data.nameIsConst == old(child.data.nameIsConst)
    ensures forall n | n in w :: n in u || n == child || (fresh(n) && Owning(n) && fresh(Strings(n.data)))
    ensures fresh(Strings(child.data) - Strings(old(child.data)))
    decreases |text| - pos, 2, 0
  {
    hide Linked, MatchAll, Matches, Separate, Reached, ChildList, Denotes, IsRoot, Lang.ParseValue;
    ghost var v, d := map[], child.data;
    r, c, v := ParseValue(child, text, pos);
    w := u + v;
    if !r.Undefined? {
      OwnHeld(child, c, v);
      forall m, n | m in u && n in v ensures ShareNothing(m.data, n.data) {
        assert m.data == old(m.data) && ShareNothing(d, m.data);
      }
      Adopt(item, ks, child, cs, c, u, v);
    }
  }

  // A new last child of item, parsed from pos.
  method ParseElement(item: Node, last: Node?, text: Text, pos: nat,
                      ghost ks: seq<Node>, ghost cs: seq<Content>, ghost u: Forest)
    returns (r: Cursor, child: Node, ghost c: Content, ghost w: Forest)
    requires pos <= |text| && NulFree(text)
    requires Built(item, last, ks, cs, u) && |ks| == |cs|
    modifies item`child, u.Keys`next
    ensures Reports(r, Lang.ParseValue(text[pos..]), text)
    ensures !r.Undefined? ==> Built(item, child, ks + [child], cs + [c], w)
    ensures r.Next? ==> Denotes(c, Lang.ParseValue(text[pos..]).value)
    ensures forall n | n in w :: n in u || (fresh(n) && Owning(n) && fresh(Strings(n.data)))
    decreases |text| - pos, 2
  {
    hide Attached, Built, Denotes, Lang.ParseValue;
    child := NewChild(item, last, ks, cs, u);
    r, c, w := ParseInto(item, child, text, pos, ks, cs, u);
  }

  // The children of item hold the items read so far, and the rest of the list starts at cur.
  ghost predicate ArrayState(item: Node, last: Node?, ks: seq<Node>, cs: seq<Content>, u: Forest,
                             vs: seq<Json>, whole: Lang.Parse<seq<Json>>, rest: Text)
    reads item`child, ks`next, ks`prev, u.Keys
  {
    && Built(item, last, ks, cs, u) && |ks| == |cs| && DenotesItems(cs, vs)
    && whole == AfterItems(vs, ItemsTail(rest))
  }

  lemma ArrayAdvance(vs: seq<Json>, s: Text)
    ensures AfterItems(vs, Lang.ParseItems(s)) == match Lang.ParseValue(s)
      case Ok(v, rest) => AfterItems(vs + [v], ItemsTail(CText.Skip(rest)))
      case Fail => Lang.Fail
      case BadEscape => Lang.BadEscape
  {
    ItemsUnfold(s);
    match Lang.ParseValue(s) {
      case Ok(v, rest) => AfterTwice(vs, v, ItemsTail(CText.Skip(rest)));
      case _ =>
    }
  }

  // Reads one item at pos behind the items read so far; whole is the list they belong to.
  method ParseArrayItem(item: Node, last: Node?, text: Text, pos: nat, ghost ks: seq<Node>, ghost cs: seq<Content>,
                        ghost u: Forest, ghost vs: seq<Json>, ghost whole: Lang.Parse<seq<Json>>)
    returns (r: Cursor, child: Node, ghost c: Content, ghost v: Json, ghost w: Forest)
    requires pos <= |text| && NulFree(text)
    requires Built(item, last, ks, cs, u) && |ks| == |cs| && DenotesItems(cs, vs)
    requires whole == AfterItems(vs, Lang.ParseItems(CText.Skip(text[pos..])))
    modifies item`child, u.Keys`next
    ensures r.Next? ==>
              && pos < r.pos <= |text|
              && ArrayState(item, child, ks + [child], cs + [c], w, vs + [v], whole, text[r.pos..])
    ensures r.Null? ==> Built(item, child, ks + [child], cs + [c], w)
    ensures r.Null? ==> whole == Lang.Fail
    ensures r.Undefined? ==> whole == Lang.BadEscape
    ensures forall n | n in w :: n in u || (fresh(n) && Owning(n) && fresh(Strings(n.data)))
    decreases |text| - pos, 3
  {
    hide Built, Denotes, DenotesItems, Lang.ParseItems, Lang.ParseValue;
    var start := Skip(text, pos);
    r, child, c, w := ParseElement(item, last, text, start, ks, cs, u);
    ArrayAdvance(vs, text[start..]);
    v := Json.Null;
    if r.Next? {
      v := Lang.ParseValue(text[start..]).value;
      DenotesOneMoreItem(cs, vs, c, v);
      var next := Skip(text, r.pos);
      r := Next(next);
    }
  }

  method ParseArray(item: Node, text: Text, pos: nat) returns (r: Cursor, ghost c: Content, ghost u: Forest)
    requires pos <= |text| && NulFree(text) && item.child == null && At(text, pos) == '['
    requires !item.data.isReference && item.data.valuestring == null
    modifies item`data, item`child
    ensures Reports(r, Lang.ParseValue(text[pos..]), text)
    ensures r.Next? ==> Represents(item, Lang.ParseValue(text[pos..]).value, c, u)
    ensures r.Null? ==> Tree(item, c, u)
    ensures item.data.name == old(item.data.name) && item.data.nameIsConst == old(item.data.nameIsConst)
    ensures forall n | n in u :: n == item || (fresh(n) && Owning(n) && fresh(Strings(n.data)))
    ensures fresh(Strings(item.data) - Strings(old(item.data)))
    decreases |text| - pos, 0, 1
  {
    hide Built, Tree, Lang.ParseItems;
    item.data := item.data.(kind := KindArray);
    c, u := Content(OwnOf(item.data), []), map[item := []];
    var cur := Skip(text, pos + 1);
    assert text[pos + 1..] == text[pos..][1..];
    if At(text, cur) == ']' {
      assert text[cur..][1..] == text[cur + 1..];
      Alone(item);
      return Next(cur + 1), c, u;
    }
    ghost var last, ks, cs, t;
    r, last, ks, cs, t := ParseArrayItems(item, text, cur);
    if !r.Undefined? {
      Complete(item, last, ks, cs, t);
      c, u := Content(OwnOf(item.data), cs), t[item := ks];
    }
  }

  // The items up to what is not followed by a comma.
  method ReadItems(item: Node, text: Text, pos: nat, ghost whole: Lang.Parse<seq<Json>>)
    returns (r: Cursor, ghost last: Node?, ghost ks: seq<Node>, ghost cs: seq<Content>, ghost t: Forest,
             ghost vs: seq<Json>)
    requires pos <= |text| && NulFree(text) && item.child == null && CText.Skip(text[pos..]) == text[pos..]
    requires whole == Lang.ParseItems(text[pos..])
    modifies item`child
    ensures r.Null? ==> whole == Lang.Fail
    ensures r.Undefined? ==> whole == Lang.BadEscape
    ensures r.Next? ==> pos < r.pos <= |text| && At(text, r.pos) != ','
    ensures r.Next? ==> ArrayState(item, last, ks, cs, t, vs, whole, text[r.pos..])
    ensures r.Null? ==> Built(item, last, ks, cs, t) && |ks| == |cs|
    ensures forall n | n in t :: fresh(n) && Owning(n) && fresh(Strings(n.data))
    decreases |text| - pos, 5
  {
    hide Lang.ParseItems, CText.Skip, Built, DenotesItems;
    ks, cs, t, vs := [], [], map[], [];
    NothingBefore(whole);
    NothingBuilt(item);
    var child: Node?;
    r, child, ks, cs, t, vs := NextItem(item, null, text, pos, ks, cs, t, vs, whole);
    while r.Next? && At(text, r.pos) == ','
      invariant r.Null? ==> whole == Lang.Fail
      invariant r.Undefined? ==> whole == Lang.BadEscape
      invariant r.Next? ==> pos < r.pos <= |text| && ArrayState(item, child, ks, cs, t, vs, whole, text[r.pos..])
      invariant r.Null? ==> Built(item, child, ks, cs, t) && |ks| == |cs|
      invariant forall n | n in t :: fresh(n) && Owning(n) && fresh(Strings(n.data))
      decreases if r.Next? then |text| - r.pos + 1 else 0
    {
      ItemsGoOn(text, r.pos);
      label Before:
      ghost var t0 := t;
      r, child, ks, cs, t, vs := NextItem(item, child, text, r.pos + 1, ks, cs, t, vs, whole);
      forall n | n in t ensures fresh(n) && Owning(n) && fresh(Strings(n.data)) {
        assert n in t0 || (fresh@Before(n) && fresh@Before(Strings(n.data)));
      }
    }
    last := child;
  }

  // One more item on the lists.
  method NextItem(item: Node, last: Node?, text: Text, pos: nat, ghost ks: seq<Node>, ghost cs: seq<Content>,
                  ghost u: Forest, ghost vs: seq<Json>, ghost whole: Lang.Parse<seq<Json>>)
    returns (r: Cursor, child: Node?, ghost ks': seq<Node>, ghost cs': seq<Content>, ghost w: Forest,
             ghost vs': seq<Json>)
    requires pos <= |text| && NulFree(text)
    requires Built(item, last, ks, cs, u) && |ks| == |cs| && DenotesItems(cs, vs)
    requires whole == AfterItems(vs, Lang.ParseItems(CText.Skip(text[pos..])))
    modifies item`child, u.Keys`next
    ensures r.Null? ==> whole == Lang.Fail
    ensures r.Undefined? ==> whole == Lang.BadEscape
    ensures r.Next? ==> pos < r.pos <= |text| && ArrayState(item, child, ks', cs', w, vs', whole, text[r.pos..])
    ensures r.Null? ==> Built(item, child, ks', cs', w) && |ks'| == |cs'|
    ensures forall n | n in w :: n in u || (fresh(n) && Owning(n) && fresh(Strings(n.data)))
    decreases |text| - pos, 4
  {
    ghost var c, v;
    r, child, c, v, w := ParseArrayItem(item, last, text, pos, ks, cs, u, vs, whole);
    ks', cs', vs' := ks + [child], cs + [c], vs + [v];
  }

  lemma ItemsGoOn(text: Text, pos: nat)
    requires pos < |text| && text[pos] == ','
    ensures ItemsTail(text[pos..]) == Lang.ParseItems(CText.Skip(text[pos + 1..]))
  {
    assert text[pos..][1..] == text[pos + 1..];
  }

  lemma ItemsStop(vs: seq<Json>, text: Text, pos: nat)
    requires pos <= |text| && At(text, pos) != ','
    ensures AfterItems(vs, ItemsTail(text[pos..]))
         == if At(text, pos) == ']' then Lang.Ok(vs, text[pos + 1..]) else Lang.Fail
  {
    assert At(text, pos) == ']' ==> text[pos..][1..] == text[pos + 1..];
    assert vs + [] == vs;
  }

  // The items and the closing bracket.
  method ParseArrayItems(item: Node, text: Text, pos: nat)
    returns (r: Cursor, ghost last: Node?, ghost ks: seq<Node>, ghost cs: seq<Content>, ghost t: Forest)
    requires pos <= |text| && NulFree(text) && item.child == null && CText.Skip(text[pos..]) == text[pos..]
    modifies item`child
    ensures Reports(r, Lang.ParseItems(text[pos..]), text)
    ensures !r.Undefined? ==> Built(item, last, ks, cs, t) && |ks| == |cs|
    ensures r.Next? ==> DenotesItems(cs, Lang.ParseItems(text[pos..]).value)
    ensures forall n | n in t :: fresh(n) && Owning(n) && fresh(Strings(n.data))
    decreases |text| - pos, 6
  {
    ghost var whole := Lang.ParseItems(text[pos..]);
    ghost var vs;
    r, last, ks, cs, t, vs := ReadItems(item, text, pos, whole);
    if r.Next? {
      ItemsStop(vs, text, r.pos);
      r := if At(text, r.pos) == ']' then Next(r.pos + 1) else Cursor.Null;
    }
  }

  lemma NothingBuilt(item: Node)
    requires item.child == null
    ensures Built(item, null, [], [], map[]) && DenotesItems([], []) && DenotesMembers([], [])
  {}

  lemma NothingBefore(p: Lang.Parse<seq<Json>>)
    ensures AfterItems([], p) == p
  {
    assert p.Ok? ==> [] + p.value == p.value;
  }

  // The same for the members of an object.
  function MembersTail(s: Text): Lang.Parse<seq<Member>> {
    if StartsWith(s, ',') then Lang.ParseMembers(CText.Skip(s[1..]))
    else if StartsWith(s, '}') then Lang.Ok([], s[1..])
    else Lang.Fail
  }

  function AfterMembers(ms: seq<Member>, p: Lang.Parse<seq<Member>>): Lang.Parse<seq<Member>> {
    match p
    case Ok(more, rest) => Lang.Ok(ms + more, rest)
    case _ => p
  }

  lemma MembersUnfold(s: Text)
    ensures Lang.ParseMembers(s) == match Lang.ParseMember(s)
      case Ok(m, rest) => AfterMembers([m], MembersTail(CText.Skip(rest)))
      case Fail => Lang.Fail
      case BadEscape => Lang.BadEscape
  {
    var p := Lang.ParseMember(s);
    assert p.Ok? ==> [p.value] + [] == [p.value];
  }

  lemma ObjectAdvance(ms: seq<Member>, s: Text)
    ensures AfterMembers(ms, Lang.ParseMembers(s)) == match Lang.ParseMember(s)
      case Ok(m, rest) => AfterMembers(ms + [m], MembersTail(CText.Skip(rest)))
      case Fail => Lang.Fail
      case BadEscape => Lang.BadEscape
  {
    MembersUnfold(s);
    match Lang.ParseMember(s) {
      case Ok(m, rest) =>
        var q := MembersTail(CText.Skip(rest));
        assert q.Ok? ==> ms + ([m] + q.value) == ms + [m] + q.value;
      case _ =>
    }
  }

  lemma NoMembersBefore(p: Lang.Parse<seq<Member>>)
    ensures AfterMembers([], p) == p
  {
    assert p.Ok? ==> [] + p.value == p.value;
  }

  ghost predicate ObjectState(item: Node, last: Node?, ks: seq<Node>, cs: seq<Content>, u: Forest,
                              ms: seq<Member>, whole: Lang.Parse<seq<Member>>, rest: Text)
    reads item`child, ks`next, ks`prev, u.Keys
  {
    && Built(item, last, ks, cs, u) && |ks| == |cs| && DenotesMembers(cs, ms)
    && whole == AfterMembers(ms, MembersTail(rest))
  }

  // A new last child of item: a name, a colon and a value.
  method ParseMember(item: Node, last: Node?, text: Text, pos: nat,
                     ghost ks: seq<Node>, ghost cs: seq<Content>, ghost u: Forest)
    returns (r: Cursor, child: Node, ghost c: Content, ghost m: Member, ghost w: Forest)
    requires pos <= |text| && NulFree(text)
    requires Built(item, last, ks, cs, u) && |ks| == |cs|
    modifies item`child, u.Keys`next
    ensures Reports(r, Lang.ParseMember(text[pos..]), text) && (r.Next? ==> m == Lang.ParseMember(text[pos..]).value)
    ensures !r.Undefined? ==> Built(item, child, ks + [child], cs + [c], w)
    ensures r.Next? ==> c.own.name == Some(m.name) && Denotes(c, m.value)
    ensures forall n | n in w :: n in u || (fresh(n) && Owning(n) && fresh(Strings(n.data)))
    decreases |text| - pos, 2
  {
    hide Attached, Built, Denotes, NamePart, Lang.ParseValue, Lang.ParseMember;
    child := NewChild(item, last, ks, cs, u);
    c, m, w := Content(OwnOf(child.data), []), Member([], Json.Null), u;
    MemberSplit(text[pos..]);
    r := ParseName(child, text, pos);
    if r.Null? {
      w := AdoptLeaf(item, child, ks, cs, u);
      c := Content(OwnOf(child.data), []);
    } else if r.Next? {
      ghost var name: Text, start := child.data.name.text, text[r.pos..];
      r, c, w := ParseInto(item, child, text, r.pos, ks, cs, u);
      if r.Next? {
        m := Member(name, Lang.ParseValue(start).value);
      }
    }
  }

  // An attached child that stays without children.
  lemma AdoptLeaf(item: Node, child: Node, ks: seq<Node>, cs: seq<Content>, u: Forest) returns (w: Forest)
    requires Attached(item, child, ks, cs, u) && child.child == null && OwnsItself(child.data)
    requires StrangerTo(child.data, u)
    ensures w == u + map[child := []]
    ensures Built(item, child, ks + [child], cs + [Content(OwnOf(child.data), [])], w)
  {
    hide Separate, Reached, Matches, Tree;
    var v: Forest := map[child := []];
    w := u + v;
    Alone(child);
    forall m, n | m in u && n in v ensures ShareNothing(m.data, n.data) {
      assert ShareNothing(child.data, m.data);
    }
    Adopt(item, ks, child, cs, Content(OwnOf(child.data), []), u, v);
  }

  // A name and the colon behind it, up to the start of the value.
  function NamePart(s: Text): Lang.Parse<Text> {
    if !StartsWith(s, '"') then Lang.Fail
    else match Lang.ScanString(s[1..])
      case Ok(name, rest) =>
        var t := CText.Skip(rest);
        if StartsWith(t, ':') then Lang.Ok(name, CText.Skip(t[1..])) else Lang.Fail
      case p => p
  }

  lemma MemberSplit(s: Text)
    ensures Lang.ParseMember(s) == match NamePart(s)
      case Fail => Lang.Fail
      case BadEscape => Lang.BadEscape
      case Ok(name, rest) =>
        match Lang.ParseValue(rest)
        case Ok(v, rest') => Lang.Ok(Member(name, v), rest')
        case Fail => Lang.Fail
        case BadEscape => Lang.BadEscape
  {}

  method ParseName(child: Node, text: Text, pos: nat) returns (r: Cursor)
    requires pos <= |text| && NulFree(text)
    modifies child`data
    ensures Reports(r, NamePart(text[pos..]), text) && (r.Next? ==> pos < r.pos)
    ensures r.Next? ==>
              && child.data.name != null && fresh(child.data.name)
              && child.data.name.text == NamePart(text[pos..]).value
              && child.data == old(child.data).(kind := KindString, name := child.data.name, valuestring := null)
    ensures !r.Next? ==>
              && child.data == old(child.data).(kind := child.data.kind, name := child.data.name,
                                                valuestring := child.data.valuestring)
              && (child.data == old(child.data) || (child.data.valuestring == null && fresh(Strings(child.data))))
  {
    hide Lang.ScanString, CText.Skip;
    r := ParseString(child, text, pos);
    if !r.Next? {
      return;
    }
    assert text[pos..][1..] == text[pos + 1..];
    child.data := child.data.(name := child.data.valuestring, valuestring := null);
    var cur := Skip(text, r.pos);
    if At(text, cur) != ':' {
      return Cursor.Null;
    }
    assert text[cur..][1..] == text[cur + 1..];
    var start := Skip(text, cur + 1);
    r := Next(start);
  }

  method ParseObjectMember(item: Node, last: Node?, text: Text, pos: nat, ghost ks: seq<Node>, ghost cs: seq<Content>,
                           ghost u: Forest, ghost ms: seq<Member>, ghost whole: Lang.Parse<seq<Member>>)
    returns (r: Cursor, child: Node, ghost c: Content, ghost m: Member, ghost w: Forest)
    requires pos <= |text| && NulFree(text)
    requires Built(item, last, ks, cs, u) && |ks| == |cs| && DenotesMembers(cs, ms)
    requires whole == AfterMembers(ms, Lang.ParseMembers(CText.Skip(text[pos..])))
    modifies item`child, u.Keys`next
    ensures r.Next? ==>
              && pos < r.pos <= |text|
              && ObjectState(item, child, ks + [child], cs + [c], w, ms + [m], whole, text[r.pos..])
    ensures r.Null? ==> Built(item, child, ks + [child], cs + [c], w)
    ensures r.Null? ==> whole == Lang.Fail
    ensures r.Undefined? ==> whole == Lang.BadEscape
    ensures forall n | n in w :: n in u || (fresh(n) && Owning(n) && fresh(Strings(n.data)))
    decreases |text| - pos, 3
  {
    hide Built, Denotes, DenotesMembers, Lang.ParseMembers, Lang.ParseMember;
    var start := Skip(text, pos);
    r, child, c, m, w := ParseMember(item, last, text, start, ks, cs, u);
    ObjectAdvance(ms, text[start..]);
    if r.Next? {
      DenotesOneMoreMember(cs, ms, c, m);
      var next := Skip(text, r.pos);
      r := Next(next);
    }
  }

  method ParseObject(item: Node, text: Text, pos: nat) returns (r: Cursor, ghost c: Content, ghost u: Forest)
    requires pos <= |text| && NulFree(text) && item.child == null && At(text, pos) == '{'
    requires !item.data.isReference && item.data.valuestring == null
    modifies item`data, item`child
    ensures Reports(r, Lang.ParseValue(text[pos..]), text)
    ensures r.Next? ==> Represents(item, Lang.ParseValue(text[pos..]).value, c, u)
    ensures r.Null? ==> Tree(item, c, u)
    ensures item.data.name == old(item.data.name) && item.data.nameIsConst == old(item.data.nameIsConst)
    ensures forall n | n in u :: n == item || (fresh(n) && Owning(n) && fresh(Strings(n.data)))
    ensures fresh(Strings(item.data) - Strings(old(item.data)))
    decreases |text| - pos, 0, 1
  {
    hide Built, Tree, Lang.ParseMembers;
    item.data := item.data.(kind := KindObject);
    c, u := Content(OwnOf(item.data), []), map[item := []];
    var cur := Skip(text, pos + 1);
    assert text[pos + 1..] == text[pos..][1..];
    if At(text, cur) == '}' {
      assert text[cur..][1..] == text[cur + 1..];
      Alone(item);
      return Next(cur + 1), c, u;
    }
    ghost var last, ks, cs, t;
    r, last, ks, cs, t := ParseObjectMembers(item, text, cur);
    if !r.Undefined? {
      Complete(item, last, ks, cs, t);
      c, u := Content(OwnOf(item.data), cs), t[item := ks];
    }
  }

  // The members up to what is not followed by a comma.
  method ReadMembers(item: Node, text: Text, pos: nat, ghost whole: Lang.Parse<seq<Member>>)
    returns (r: Cursor, ghost last: Node?, ghost ks: seq<Node>, ghost cs: seq<Content>, ghost t: Forest,
             ghost ms: seq<Member>)
    requires pos <= |text| && NulFree(text) && item.child == null && CText.Skip(text[pos..]) == text[pos..]
    requires whole == Lang.ParseMembers(text[pos..])
    modifies item`child
    ensures r.Null? ==> whole == Lang.Fail
    ensures r.Undefined? ==> whole == Lang.BadEscape
    ensures r.Next? ==> pos < r.pos <= |text| && At(text, r.pos) != ','
    ensures r.Next? ==> ObjectState(item, last, ks, cs, t, ms, whole, text[r.pos..])
    ensures r.Null? ==> Built(item, last, ks, cs, t) && |ks| == |cs|
    ensures forall n | n in t :: fresh(n) && Owning(n) && fresh(Strings(n.data))
    decreases |text| - pos, 5
  {
    hide Lang.ParseMembers, CText.Skip, Built, DenotesMembers;
    ks, cs, t, ms := [], [], map[], [];
    NoMembersBefore(whole);
    NothingBuilt(item);
    var child: Node?;
    r, child, ks, cs, t, ms := NextMember(item, null, text, pos, ks, cs, t, ms, whole);
    while r.Next? && At(text, r.pos) == ','
      invariant r.Null? ==> whole == Lang.Fail
      invariant r.Undefined? ==> whole == Lang.BadEscape
      invariant r.Next? ==> pos < r.pos <= |text| && ObjectState(item, child, ks, cs, t, ms, whole, text[r.pos..])
      invariant r.Null? ==> Built(item, child, ks, cs, t) && |ks| == |cs|
      invariant forall n | n in t :: fresh(n) && Owning(n) && fresh(Strings(n.data))
      decreases if r.Next? then |text| - r.pos + 1 else 0
    {
      MembersGoOn(text, r.pos);
      label Before:
      ghost var t0 := t;
      r, child, ks, cs, t, ms := NextMember(item, child, text, r.pos + 1, ks, cs, t, ms, whole);
      forall n | n in t ensures fresh(n) && Owning(n) && fresh(Strings(n.data)) {
        assert n in t0 || (fresh@Before(n) && fresh@Before(Strings(n.data)));
      }
    }
    last := child;
  }

  // One more member on the lists.
  method NextMember(item: Node, last: Node?, text: Text, pos: nat, ghost ks: seq<Node>, ghost cs: seq<Content>,
                    ghost u: Forest, ghost ms: seq<Member>, ghost whole: Lang.Parse<seq<Member>>)
    returns (r: Cursor, child: Node?, ghost ks': seq<Node>, ghost cs': seq<Content>, ghost w: Forest,
             ghost ms': seq<Member>)
    requires pos <= |text| && NulFree(text)
    requires Built(item, last, ks, cs, u) && |ks| == |cs| && DenotesMembers(cs, ms)
    requires whole == AfterMembers(ms, Lang.ParseMembers(CText.Skip(text[pos..])))
    modifies item`child, u.Keys`next
    ensures r.Null? ==> whole == Lang.Fail
    ensures r.Undefined? ==> whole == Lang.BadEscape
    ensures r.Next? ==> pos < r.pos <= |text| && ObjectState(item, child, ks', cs', w, ms', whole, text[r.pos..])
    ensures r.Null? ==> Built(item, child, ks', cs', w) && |ks'| == |cs'|
    ensures forall n | n in w :: n in u || (fresh(n) && Owning(n) && fresh(Strings(n.data)))
    decreases |text| - pos, 4
  {
    ghost var c, m;
    r, child, c, m, w := ParseObjectMember(item, last, text, pos, ks, cs, u, ms, whole);
    ks', cs', ms' := ks + [child], cs + [c], ms + [m];
  }

  lemma MembersGoOn(text: Text, pos: nat)
    requires pos < |text| && text[pos] == ','
    ensures MembersTail(text[pos..]) == Lang.ParseMembers(CText.Skip(text[pos + 1..]))
  {
    assert text[pos..][1..] == text[pos + 1..];
  }

  lemma MembersStop(ms: seq<Member>, text: Text, pos: nat)
    requires pos <= |text| && At(text, pos) != ','
    ensures AfterMembers(ms, MembersTail(text[pos..]))
         == if At(text, pos) == '}' then Lang.Ok(ms, text[pos + 1..]) else Lang.Fail
  {
    assert At(text, pos) == '}' ==> text[pos..][1..] == text[pos + 1..];
    assert ms + [] == ms;
  }

  // The members and the closing brace.
  method ParseObjectMembers(item: Node, text: Text, pos: nat)
    returns (r: Cursor, ghost last: Node?, ghost ks: seq<Node>, ghost cs: seq<Content>, ghost t: Forest)
    requires pos <= |text| && NulFree(text) && item.child == null && CText.Skip(text[pos..]) == text[pos..]
    modifies item`child
    ensures Reports(r, Lang.ParseMembers(text[pos..]), text)
    ensures !r.Undefined? ==> Built(item, last, ks, cs, t) && |ks| == |cs|
    ensures r.Next? ==> DenotesMembers(cs, Lang.ParseMembers(text[pos..]).value)
    ensures forall n | n in t :: fresh(n) && Owning(n) && fresh(Strings(n.data))
    decreases |text| - pos, 6
  {
    ghost var whole := Lang.ParseMembers(text[pos..]);
    ghost var ms;
    r, last, ks, cs, t, ms := ReadMembers(item, text, pos, whole);
    if r.Next? {
      MembersStop(ms, text, r.pos);
      r := if At(text, r.pos) == '}' then Next(r.pos + 1) else Cursor.Null;
    }
  }

  // cJSON_ParseWithOpts: a new tree, or null with whatever was built of it freed again.
  method ParseText(memory: Memory, text: Text, strict: bool)
    returns (r: Cursor, item: Node, ghost c: Content, ghost u: Forest)
    requires NulFree(text)
    modifies memory
    ensures Reports(r, Lang.ParseText(text, strict), text)
    ensures r.Next? ==> Represents(item, Lang.ParseText(text, strict).value, c, u) && memory.freed == old(memory.freed)
    ensures r.Next? ==> item.next == null && forall n | n in u :: fresh(n) && Owning(n) && fresh(Strings(n.data))
    ensures r.Null? ==> Tree(item, c, u) && memory.freed == old(memory.freed) + FreeOrder(item, c, u)
    ensures r.Null? ==> forall n | n in u :: n in memory.freed && forall b | b in Strings(n.data) :: b in memory.freed
  {
    hide Linked, IsRoot, Separate, Reached, Denotes, Lang.ParseText, FreeOrder, NoDuplicates;
    item := new Node();
    r, c, u := ParseRoot(item, text, strict);
    if r.Null? {
      DeleteTree(memory, item, c, u);
    }
  }

  // Its parse, before any cleanup.
  method ParseRoot(item: Node, text: Text, strict: bool) returns (r: Cursor, ghost c: Content, ghost u: Forest)
    requires NulFree(text) && item.child == null
    requires item.data == Data(KindFalse, false, false, 0, 0, null, null)
    modifies item`data, item`child
    ensures Reports(r, Lang.ParseText(text, strict), text)
    ensures r.Next? ==> Represents(item, Lang.ParseText(text, strict).value, c, u)
    ensures r.Null? ==> Tree(item, c, u)
    ensures forall n | n in u :: (n == item || fresh(n)) && Owning(n) && fresh(Strings(n.data))
  {
    hide Tree, Denotes, Lang.ParseValue;
    var start := Skip(text, 0);
    assert text[0..] == text;
    r, c, u := ParseValue(item, text, start);
    if r.Next? && strict {
      var next := Skip(text, r.pos);
      r := if next < |text| then Cursor.Null else Next(next);
    }
  }
}
