/** Requests as bytes handed to the center, and the bytes it answers with: one exchange for each command. */
module CmpExchange {
  import opened CText
  import opened JsonTree
  import opened CmpPacket
  import opened CmpCodec
  import opened CmpRegistry
  import opened CmpKeepAlive
  import opened CmpControlCenter
  import opened CmpWire

  // The fields of a request with this id and body.
  function Brought(id: nat, body: Bytes): Fields {
    if body == [] then map[] else BodyFields(id, body)
  }

  ghost predicate Ready(c: ControlCenter, world: World)
    reads c
  {
    c.Valid() && c.Conserved() && Fits(world)
  }

  function Events(fd: int, id: nat, fields: Fields): seq<Event> {
    if id == BIND_REQUEST && "id" in fields then [Event.Bind(fields["id"], fd)] else []
  }

  // Any request of bytes.
  method Hand(c: ControlCenter, fd: int, p: Bytes, world: World, ghost id: nat, ghost status: nat, ghost n: nat,
              ghost body: Bytes)
    requires Ready(c, world) && IsPacket(p, id, status, n, body) && id < 0x8000_0000 && |body| <= MAX_DATA_LEN
    modifies c
    ensures Ready(c, world) && n < 0x1_0000_0000
    ensures c.sent == old(c.sent)
      + Written(fd, id, Signed(n), Brought(id, body), old(c.rows), world, old(c.msnSequence))
    ensures c.history == old(c.history) + Events(fd, id, Brought(id, body))
    ensures c.rows == After(c.history) && old(c.rows) == After(old(c.history))
  {
    hide Replies, Given, DueAfter, Written, After, GetCommand, GetSequence, GetLength, Response, Signed;
    PacketRead(p, id, status, n, body);
    SignedOf(id);
    AckIsNegative(GetCommand(p));
    c.OnCMP(fd, p, world);
  }

  // The bind takes the place of any other row of that id.
  lemma BoundRows(history: seq<Event>, id: Text, fd: int)
    ensures forall r :: r in After(history + [Event.Bind(id, fd)]) <==>
              r == Row(id, 1, fd) || (r in After(history) && r.id != id)
  {
    AfterMore(history, Event.Bind(id, fd));
    forall r ensures r in After(history + [Event.Bind(id, fd)]) <==>
                       r == Row(id, 1, fd) || (r in After(history) && r.id != id)
    {
      InWithoutId(After(history), id, r);
    }
  }

  lemma OneString(name: Text, t: Bytes)
    requires NulFree(t) && |t| < MAX_SIZE
    ensures StringField(name, t + NUL) == Filled(name, t)
  {
    StringFieldOf(name, t, []);
    assert t + NUL + [] == t + NUL;
  }

  method BindExchange(c: ControlCenter, fd: int, p: Bytes, world: World, ghost id: Bytes, ghost status: nat,
                      ghost n: nat)
    requires Ready(c, world) && IsPacket(p, 0x01, status, n, id + ['\0']) && NulFree(id) && |id| < 2048
    modifies c
    ensures Ready(c, world)
    ensures Adds(old(c.sent), c.sent, fd, 0x8000_0001, if id == [] then 0x41 else 0, n, [])
    ensures forall r :: r in c.rows <==>
              (id != [] && r == Row(id, 1, fd)) || (r in old(c.rows) && (id == [] || r.id != id))
  {
    hide Replies, Given, DueAfter, After, IsPacket, StringField, PacketOf, Bare;
    OneString("id", id);
    ghost var before := c.history;
    Hand(c, fd, p, world, 0x01, status, n, id + NUL);
    BareOnWire(fd, 0x01, if id == [] then 0x41 else 0, n);
    if id == [] {
      assert before + [] == before;
    } else {
      BoundRows(before, id, fd);
    }
  }

  // Unbinding needs no body, and does not change the table.
  method UnbindExchange(c: ControlCenter, fd: int, p: Bytes, world: World, ghost status: nat, ghost n: nat,
                        ghost body: Bytes)
    requires Ready(c, world) && IsPacket(p, 0x06, status, n, body) && |body| <= 2048
    modifies c
    ensures Ready(c, world) && Adds(old(c.sent), c.sent, fd, 0x8000_0006, 0, n, []) && c.rows == old(c.rows)
  {
    hide Replies, Given, DueAfter, After, IsPacket, PacketOf, Bare, BodyFields;
    hide Signed, ResponseTo;
    ghost var before := c.history;
    Hand(c, fd, p, world, 0x06, status, n, body);
    BareOnWire(fd, 0x06, 0, n);
    assert before + [] == before;
  }

  // Ids without a handler are refused, whatever the body.
  method UnknownExchange(c: ControlCenter, fd: int, p: Bytes, world: World, ghost id: nat, ghost status: nat,
                         ghost n: nat, ghost body: Bytes)
    requires Ready(c, world) && IsPacket(p, id, status, n, body) && |body| <= 2048 && id < 0x8000_0000
    requires id !in {0x01, 0x03, 0x04, 0x05, 0x06, 0x12, 0x13, 0x16, 0x17, 0x18}
    modifies c
    ensures Ready(c, world) && Adds(old(c.sent), c.sent, fd, 0x8000_0000 + id, 0x03, n, []) && c.rows == old(c.rows)
  {
    hide Replies, Given, DueAfter, After, IsPacket, PacketOf, Bare, BodyFields;
    hide Signed, ResponseTo;
    ghost var before := c.history;
    Hand(c, fd, p, world, id, status, n, body);
    BareOnWire(fd, id, 0x03, n);
    assert before + [] == before;
  }

  lemma EmptyIsRefused(fd: int, id: nat, sequence: int, rows: Rows, world: World, number: int)
    requires id in {0x01, 0x03, 0x04, 0x05, 0x12, 0x13, 0x16, 0x17, 0x18}
    ensures Written(fd, id, sequence, map[], rows, world, number)
         == [PacketOf(Bare(fd, ResponseTo(id), if id == 0x01 then 0x41 else 0x40, sequence))]
  {
    hide PacketOf, Bare, WithText, ResponseTo, Lookup, Header, PortStates;
  }

  // The requests that need a body, when there is none.
  method EmptyExchange(c: ControlCenter, fd: int, p: Bytes, world: World, ghost id: nat, ghost status: nat,
                       ghost n: nat)
    requires Ready(c, world) && IsPacket(p, id, status, n, [])
    requires id in {0x01, 0x03, 0x04, 0x05, 0x12, 0x13, 0x16, 0x17, 0x18}
    modifies c
    ensures Ready(c, world) && c.rows == old(c.rows)
    ensures Adds(old(c.sent), c.sent, fd, 0x8000_0000 + id, if id == 0x01 then 0x41 else 0x40, n, [])
  {
    hide Written, Replies, Given, DueAfter, After, IsPacket, PacketOf, Bare, Signed, ResponseTo;
    ghost var before := c.history;
    EmptyIsRefused(fd, id, Signed(n), c.rows, world, c.msnSequence);
    Hand(c, fd, p, world, id, status, n, []);
    BareOnWire(fd, id, if id == 0x01 then 0x41 else 0x40, n);
    assert before + [] == before;
  }

  // An int is read from its four bytes, and kept as its decimal digits.
  lemma TypeAtFront(w: Bytes, rest: Bytes)
    requires |w| == 4
    ensures forall v: nat | IsWord(w, v) ::
              DecimalBytes(IntField(w + rest)) == Decimal(if v < 0x8000_0000 then v else v - 0x1_0000_0000)
  {
    hide Ntohl, IsWord, Decimal, Signed;
    var zeros: Bytes := ['\0', '\0', '\0', '\0'];
    FourAtFront(w, rest + zeros);
    assert w + rest + zeros == w + (rest + zeros);
    forall v: nat | IsWord(w, v)
      ensures IntField(w + rest) == if v < 0x8000_0000 then v else v - 0x1_0000_0000
    {
      WordRead(w, v);
      SignedOf(v);
    }
  }

  lemma FourAtFront(w: Bytes, rest: Bytes)
    requires |w| == 4
    ensures Ntohl(w + rest) == Ntohl(w)
  {
    assert (w + rest)[..4] == w;
  }

  lemma TypedFields(id: nat, w: Bytes, data: Bytes)
    requires |w| == 4 && NulFree(data) && |data| < MAX_SIZE && (id == ACCESS_LOG_REQUEST || id == SIGN_UP_REQUEST)
    ensures var fields := Brought(id, w + (data + NUL));
            && "type" in fields && ("data" in fields <==> data != [])
            && ("data" in fields ==> fields["data"] == data)
            && forall v: nat | IsWord(w, v) ::
                 fields["type"] == Decimal(if v < 0x8000_0000 then v else v - 0x1_0000_0000)
  {
    TypeAtFront(w, data + NUL);
    OneString("data", data);
    assert From(w + (data + NUL), 4) == data + NUL;
  }

  // A log with a type of four bytes: it is accepted when the log database takes it.
  method AccessLogExchange(c: ControlCenter, fd: int, p: Bytes, world: World, ghost w: Bytes, ghost data: Bytes,
                           ghost status: nat, ghost n: nat)
    requires Ready(c, world) && IsPacket(p, 0x03, status, n, w + (data + ['\0']))
    requires |w| == 4 && NulFree(data) && |data| < 2044
    modifies c
    ensures Ready(c, world) && c.rows == old(c.rows)
    ensures Adds(old(c.sent), c.sent, fd, 0x8000_0003, if data != [] && world.oid != [] then 0 else 0x40, n, [])
  {
    hide Replies, Given, DueAfter, After, IsPacket, PacketOf, Bare, BodyFields;
    hide Signed, ResponseTo;
    ghost var before := c.history;
    TypedFields(0x03, w, data);
    Hand(c, fd, p, world, 0x03, status, n, w + (data + NUL));
    BareOnWire(fd, 0x03, if data != [] && world.oid != [] then 0 else 0x40, n);
    assert before + [] == before;
  }

  method SignUpExchange(c: ControlCenter, fd: int, p: Bytes, world: World, ghost w: Bytes, ghost data: Bytes,
                        ghost status: nat, ghost n: nat)
    requires Ready(c, world) && IsPacket(p, 0x05, status, n, w + (data + ['\0']))
    requires |w| == 4 && NulFree(data) && |data| < 2044
    modifies c
    ensures Ready(c, world) && c.rows == old(c.rows)
    ensures Adds(old(c.sent), c.sent, fd, 0x8000_0005,
                 if data == [] then 0x40 else if world.signedUp then 0 else 0x08, n, [])
  {
    hide Replies, Given, DueAfter, After, IsPacket, PacketOf, Bare, BodyFields;
    hide Signed, ResponseTo;
    ghost var before := c.history;
    TypedFields(0x05, w, data);
    Hand(c, fd, p, world, 0x05, status, n, w + (data + NUL));
    BareOnWire(fd, 0x05, if data == [] then 0x40 else if world.signedUp then 0 else 0x08, n);
    assert before + [] == before;
  }

  // A string of the services, with what stands behind its first NUL.
  predicate CutAt(s: Bytes, t: Bytes, cut: Bytes) {
    s == t + cut && NulFree(t) && (cut == [] || cut[0] == '\0')
  }

  lemma {:induction false} CStringCut(t: Bytes, cut: Bytes)
    requires NulFree(t) && (cut == [] || cut[0] == '\0')
    ensures CString(t + cut) == t
  {
    if t == [] {
      assert t + cut == cut;
    } else {
      CStringCut(t[1..], cut);
      assert (t + cut)[1..] == t[1..] + cut;
    }
  }

  // The initial data t of that type, or the status of a system error if there are none.
  method InitialExchange(c: ControlCenter, fd: int, p: Bytes, world: World, ghost w: Bytes, ghost t: Bytes,
                         ghost cut: Bytes, ghost status: nat, ghost n: nat)
    requires Ready(c, world) && IsPacket(p, 0x04, status, n, w) && |w| == 4 && CutAt(world.initData, t, cut)
    modifies c
    ensures Ready(c, world) && c.rows == old(c.rows)
    ensures if world.initData == [] then Adds(old(c.sent), c.sent, fd, 0x8000_0004, 0x08, n, [])
            else Adds(old(c.sent), c.sent, fd, 0x8000_0004, 0, n, t + ['\0'])
  {
    hide Replies, Given, DueAfter, After, IsPacket, PacketOf, Bare, WithText;
    hide Signed, ResponseTo;
    ghost var before := c.history;
    CStringCut(t, cut);
    Hand(c, fd, p, world, 0x04, status, n, w);
    BareOnWire(fd, 0x04, 0x08, n);
    TextOnWire(fd, 0x04, n, t);
    assert before + [] == before;
  }

  lemma LoginFields(account: Bytes, password: Bytes)
    requires NulFree(account) && NulFree(password) && |account| < MAX_SIZE && |password| < MAX_SIZE
    ensures var fields := Brought(MDM_LOGIN_REQUEST, account + (NUL + (password + NUL)));
            && ("account" in fields && "password" in fields <==> account != [] && password != [])
            && ("account" in fields && "password" in fields ==>
                  fields["account"] == account && fields["password"] == password)
  {
    AccountAndPassword(account, password, []);
    assert account + NUL + (password + NUL) + [] == account + (NUL + (password + NUL));
  }

  // The token t for an account and a password, or one of two statuses.
  method LoginExchange(c: ControlCenter, fd: int, p: Bytes, world: World, ghost account: Bytes, ghost password: Bytes,
                       ghost t: Bytes, ghost cut: Bytes, ghost status: nat, ghost n: nat)
    requires Ready(c, world) && IsPacket(p, 0x16, status, n, account + (['\0'] + (password + ['\0'])))
    requires NulFree(account) && NulFree(password) && |account| + |password| <= 2046 && CutAt(world.token, t, cut)
    modifies c
    ensures Ready(c, world) && c.rows == old(c.rows)
    ensures if account == [] || password == [] then Adds(old(c.sent), c.sent, fd, 0x8000_0016, 0x40, n, [])
            else if world.token == [] then Adds(old(c.sent), c.sent, fd, 0x8000_0016, 0x14, n, [])
            else Adds(old(c.sent), c.sent, fd, 0x8000_0016, 0, n, t + ['\0'])
  {
    hide Replies, Given, DueAfter, After, IsPacket, PacketOf, Bare, WithText, BodyFields;
    hide Signed, ResponseTo;
    ghost var before := c.history;
    CStringCut(t, cut);
    LoginFields(account, password);
    Hand(c, fd, p, world, 0x16, status, n, account + (NUL + (password + NUL)));
    BareOnWire(fd, 0x16, 0x40, n);
    BareOnWire(fd, 0x16, 0x14, n);
    TextOnWire(fd, 0x16, n, t);
    assert before + [] == before;
  }

  lemma OperateText()
    ensures CString(OPERATE_TEXT) == "opreate_json"
  {
    CStringCut("opreate_json", []);
    assert "opreate_json" + [] == OPERATE_TEXT;
  }

  // An operation with a token is answered under the id of a login response.
  method OperateExchange(c: ControlCenter, fd: int, p: Bytes, world: World, ghost token: Bytes, ghost status: nat,
                         ghost n: nat)
    requires Ready(c, world) && IsPacket(p, 0x17, status, n, token + ['\0']) && NulFree(token) && |token| < 2048
    modifies c
    ensures Ready(c, world) && c.rows == old(c.rows)
    ensures if token == [] then Adds(old(c.sent), c.sent, fd, 0x8000_0017, 0x40, n, [])
            else Adds(old(c.sent), c.sent, fd, 0x8000_0016, 0, n, "opreate_json" + ['\0'])
  {
    hide Replies, Given, DueAfter, After, IsPacket, PacketOf, Bare, WithText, StringField, CString;
    hide Signed, ResponseTo, PortStates, CharField, IntField, DecimalBytes;
    ghost var before := c.history;
    OneString("token", token);
    OperateText();
    Hand(c, fd, p, world, 0x17, status, n, token + NUL);
    BareOnWire(fd, 0x17, 0x40, n);
    TextOnWire(fd, 0x16, n, OPERATE_TEXT);
    assert before + [] == before;
  }

  method TrackerExchange(c: ControlCenter, fd: int, p: Bytes, world: World, ghost data: Bytes, ghost status: nat,
                         ghost n: nat)
    requires Ready(c, world) && IsPacket(p, 0x18, status, n, data + ['\0']) && NulFree(data) && |data| < 2048
    modifies c
    ensures Ready(c, world) && c.rows == old(c.rows)
    ensures Adds(old(c.sent), c.sent, fd, 0x8000_0018, if data == [] then 0x40 else 0, n, [])
  {
    hide Replies, Given, DueAfter, After, IsPacket, PacketOf, Bare, WithText, StringField, CString;
    hide Signed, ResponseTo;
    ghost var before := c.history;
    OneString("data", data);
    Hand(c, fd, p, world, 0x18, status, n, data + NUL);
    BareOnWire(fd, 0x18, if data == [] then 0x40 else 0, n);
    assert before + [] == before;
  }

  // The socket of the one live row of a name, or none above zero.
  predicate LivesAt(rows: Rows, name: Text, f: int) {
    f > 0 && Row(name, 1, f) in rows
  }

  lemma LookupLives(history: seq<Event>, name: Text)
    ensures var rows := After(history);
            && (forall f | LivesAt(rows, name, f) :: Lookup(rows, name) == f)
            && ((forall f :: !LivesAt(rows, name, f)) ==> Lookup(rows, name) <= 0)
  {
    var rows := After(history);
    forall f | Row(name, 1, f) in rows ensures Lookup(rows, name) == f {
      RowsAreBindings(history, name, f);
      LookupIsLatestBind(history, name, f);
    }
    var f := Lookup(rows, name);
    if f > 0 {
      InFdsOf(rows, name, f);
      assert LivesAt(rows, name, f);
    }
  }

  lemma SettingFields(w: Byte, q: Byte, s: Byte, name: Bytes)
    requires NulFree(name) && |name| < MAX_SIZE
    ensures var fields := Brought(POWER_PORT_SET_REQUEST, [w, q, s] + (name + NUL));
            && ("wire" in fields <==> w != '\0') && ("port" in fields <==> q != '\0')
            && ("state" in fields <==> s != '\0') && ("controller" in fields <==> name != [])
            && ("wire" in fields ==> fields["wire"] == [w]) && ("port" in fields ==> fields["port"] == [q])
            && ("state" in fields ==> fields["state"] == [s])
            && ("controller" in fields ==> fields["controller"] == name)
  {
    hide StringField;
    var body: Bytes := [w, q, s] + (name + NUL);
    OneString("controller", name);
    assert From(body, 1)[0] == q && From(body, 2)[0] == s && From(body, 3) == name + NUL;
  }

  // A setting goes on, with a number of its own, to the controller that has the name, behind the response.
  method SettingExchange(c: ControlCenter, fd: int, p: Bytes, world: World, ghost w: Byte, ghost q: Byte, ghost s: Byte,
                         ghost name: Bytes, ghost status: nat, ghost n: nat)
    requires Ready(c, world) && IsPacket(p, 0x12, status, n, [w, q, s] + (name + ['\0']))
    requires NulFree(name) && |name| <= 2044
    modifies c
    ensures Ready(c, world) && c.rows == old(c.rows)
    ensures w == '\0' || q == '\0' || s == '\0' || name == [] ==>
              Adds(old(c.sent), c.sent, fd, 0x8000_0012, 0x40, n, [])
    ensures w != '\0' && q != '\0' && s != '\0' && name != [] ==>
              && ((forall f :: !LivesAt(old(c.rows), name, f)) ==>
                    Adds(old(c.sent), c.sent, fd, 0x8000_0012, 0, n, []))
              && (forall f | LivesAt(old(c.rows), name, f) ::
                    exists t, next :: Adds(old(c.sent), t, fd, 0x8000_0012, 0, n, [])
                                      && IsNext(old(c.msnSequence), next)
                                      && Adds(t, c.sent, f, 0x12, 0, next, [w, q, s]))
  {
    hide Replies, Given, DueAfter, After, IsPacket, PacketOf, Bare, BodyFields, Lookup, Header;
    hide Signed, ResponseTo;
    ghost var before, was, number := c.history, c.sent, c.msnSequence;
    SettingFields(w, q, s, name);
    LookupLives(before, name);
    Hand(c, fd, p, world, 0x12, status, n, [w, q, s] + (name + NUL));
    BareOnWire(fd, 0x12, 0x40, n);
    BareOnWire(fd, 0x12, 0, n);
    assert before + [] == before;
    if w != '\0' && q != '\0' && s != '\0' && name != [] {
      ghost var fields := Brought(0x12, [w, q, s] + (name + NUL));
      SettingOnWire(fields, w, q, s, NextSequence(number));
      forall f | LivesAt(old(c.rows), name, f)
        ensures exists t, next :: Adds(was, t, fd, 0x8000_0012, 0, n, []) && IsNext(number, next)
                                  && Adds(t, c.sent, f, 0x12, 0, next, [w, q, s])
      {
        var t := was + [c.sent[|was|]];
        assert Adds(was, t, fd, 0x8000_0012, 0, n, []);
        assert Adds(t, c.sent, f, 0x12, 0, NextSequence(number), [w, q, s]);
      }
    }
  }

  // The number behind n, from 1 to 0x7FFFFFFE.
  predicate IsNext(n: int, next: nat) {
    next == if n < 0x7FFF_FFFE then n + 1 else 1
  }

  lemma SettingOnWire(fields: Fields, w: Byte, q: Byte, s: Byte, next: nat)
    requires "wire" in fields && "port" in fields && "state" in fields && next < 0x8000_0000
    requires fields["wire"] == [w] && fields["port"] == [q] && fields["state"] == [s]
    ensures IsPacket(PortPacket(fields, next), 0x12, 0, next, [w, q, s])
  {
    hide IsPacket, Header, Unsigned;
    assert PortSetting(fields) == [w, q, s];
    PacketWritten(0x12, STATUS_ROK, next, [w, q, s]);
    UnsignedOf(0x12);
    UnsignedOf(STATUS_ROK);
    UnsignedOf(next);
  }

  lemma QuestionFields(w: Byte, name: Bytes)
    requires NulFree(name) && |name| < MAX_SIZE
    ensures var fields := Brought(POWER_PORT_STATE_REQUEST, [w] + (name + NUL));
            && ("wire" in fields <==> w != '\0') && ("controller" in fields <==> name != [])
            && ("wire" in fields ==> fields["wire"] == [w]) && ("controller" in fields ==> fields["controller"] == name)
  {
    hide StringField;
    var body: Bytes := [w] + (name + NUL);
    OneString("controller", name);
    assert From(body, 1) == name + NUL;
  }

  lemma QuestionOnWire(w: Byte, next: nat)
    requires w != '\0' && next < 0x8000_0000
    ensures IsPacket(PortQuestion([w], next), 0x13, 0, next, [w])
  {
    hide IsPacket, Header, Unsigned;
    assert FirstByte([w]) == [w];
    PacketWritten(0x13, STATUS_ROK, next, [w]);
    UnsignedOf(0x13);
    UnsignedOf(STATUS_ROK);
    UnsignedOf(next);
  }

  // The text of the answer to every such question.
  const STATES: Bytes := FRONT + BACK
  const FRONT: Bytes := "{\"count\":1,\"wires\":[{\"wire\":1,"
  const BACK: Bytes := "\"state\": \"1111\"}]}"

  lemma StatesText()
    ensures CString(PortStates()) == STATES && |STATES| < MAX_DATA_LEN
  {
    hide CString;
    assert NulFree(FRONT) && NulFree(BACK);
    assert NulFree(FRONT + BACK);
    assert PortStates() == FRONT + BACK;
    CStringCut(PortStates(), []);
    assert PortStates() + [] == PortStates();
  }

  // The controller that has the name is asked, and the requester is answered at once, by a fixed text.
  method QuestionExchange(c: ControlCenter, fd: int, p: Bytes, world: World, ghost w: Byte, ghost name: Bytes,
                          ghost status: nat, ghost n: nat)
    requires Ready(c, world) && IsPacket(p, 0x13, status, n, [w] + (name + ['\0']))
    requires NulFree(name) && |name| <= 2046
    modifies c
    ensures Ready(c, world) && c.rows == old(c.rows)
    ensures w == '\0' || name == [] ==> Adds(old(c.sent), c.sent, fd, 0x8000_0013, 0x40, n, [])
    ensures w != '\0' && name != [] ==>
              && ((forall f :: !LivesAt(old(c.rows), name, f)) ==>
                    Adds(old(c.sent), c.sent, fd, 0x8000_0013, 0x08, n, []))
              && (forall f | LivesAt(old(c.rows), name, f) ::
                    exists t, next :: Adds(old(c.sent), t, f, 0x13, 0, next, [w])
                                      && IsNext(old(c.msnSequence), next)
                                      && if world.sendResult <= 0 then Adds(t, c.sent, fd, 0x8000_0013, 0x12, n, [])
                                         else Adds(t, c.sent, fd, 0x8000_0013, 0, n, STATES + ['\0']))
  {
    hide Replies, Given, DueAfter, After, IsPacket, PacketOf, Bare, WithText, BodyFields, Lookup, Header, CString;
    hide PortStates, PortQuestion;
    hide Signed, ResponseTo;
    ghost var before, was, number := c.history, c.sent, c.msnSequence;
    QuestionFields(w, name);
    LookupLives(before, name);
    StatesText();
    Hand(c, fd, p, world, 0x13, status, n, [w] + (name + NUL));
    BareOnWire(fd, 0x13, 0x40, n);
    BareOnWire(fd, 0x13, 0x08, n);
    BareOnWire(fd, 0x13, 0x12, n);
    TextOnWire(fd, 0x13, n, STATES);
    assert before + [] == before;
    if w != '\0' && name != [] {
      QuestionOnWire(w, NextSequence(number));
      forall f | LivesAt(old(c.rows), name, f)
        ensures exists t, next :: Adds(was, t, f, 0x13, 0, next, [w]) && IsNext(number, next)
                                  && if world.sendResult <= 0 then Adds(t, c.sent, fd, 0x8000_0013, 0x12, n, [])
                                     else Adds(t, c.sent, fd, 0x8000_0013, 0, n, STATES + ['\0'])
      {
        var t := was + [c.sent[|was|]];
        assert Adds(was, t, f, 0x13, 0, NextSequence(number), [w]);
      }
    }
  }

  // One round of enquiries on the wire: to each socket in order, numbered from behind n.
  lemma {:induction false} RoundOnWire(fds: seq<int>, n: int, i: nat)
    requires 0 <= n <= 0x7FFF_FFFE && i < |fds| <= 0x7FFF_FFFE
    ensures |EnquiryPackets(Enquiries(fds, n))| == |fds|
    ensures IsSent(EnquiryPackets(Enquiries(fds, n))[i], fds[i], 0x15, 0,
                   if n + i + 1 <= 0x7FFF_FFFE then n + i + 1 else n + i + 1 - 0x7FFF_FFFE, [])
  {
    Numbered(fds, n, i);
    PacketsOfRound(Enquiries(fds, n), i);
    var e := Enquiries(fds, n)[i];
    PacketWritten(0x15, STATUS_ROK, e.sequence, []);
    UnsignedOf(0x15);
    UnsignedOf(STATUS_ROK);
    UnsignedOf(e.sequence);
    var header := Header(HEADER_SIZE, 0x15, STATUS_ROK, e.sequence);
    assert header + [] == header;
  }

  lemma {:induction false} PacketsOfRound(es: seq<Enquiry>, i: nat)
    requires i < |es|
    ensures |EnquiryPackets(es)| == |es| && EnquiryPackets(es)[i] == EnquiryPacket(es[i])
  {
    if i > 0 {
      PacketsOfRound(es[1..], i - 1);
    } else if |es| > 1 {
      PacketsOfRound(es[1..], 0);
    }
  }

  // The requests that the encoder writes, in bytes.
  lemma EncodedOnWire(r: Request, n: nat)
    requires Sendable(r) && n < 0x8000_0000
    ensures var p := Encode(r, n);
            match r
            case Bind(id) => IsPacket(p, 0x01, 0, n, id + ['\0'])
            case AccessLog(kind, data) =>
              exists w :: IsWord(w, Unsigned(kind)) && IsPacket(p, 0x03, 0, n, w + (data + ['\0']))
            case Initial(kind) => exists w :: IsWord(w, Unsigned(kind)) && IsPacket(p, 0x04, 0, n, w)
            case SignUp(kind, data) =>
              exists w :: IsWord(w, Unsigned(kind)) && IsPacket(p, 0x05, 0, n, w + (data + ['\0']))
            case MdmLogin(account, password) =>
              IsPacket(p, 0x16, 0, n, account + (['\0'] + (password + ['\0'])))
            case MdmOperate(token) => IsPacket(p, 0x17, 0, n, token + ['\0'])
  {
    hide IsPacket, IsWord, Header, Htonl, Unsigned;
    PacketWritten(Command(r), STATUS_ROK, n, Body(r));
    UnsignedOf(Command(r));
    UnsignedOf(STATUS_ROK);
    UnsignedOf(n);
    match r {
      case AccessLog(kind, _) => WordWritten(kind);
      case Initial(kind) => WordWritten(kind);
      case SignUp(kind, _) => WordWritten(kind);
      case MdmLogin(account, password) => Assoc(account, NUL, password + NUL);
      case _ =>
    }
  }
}
