/** Requests as bytes handed to the AW-2401 controller, and the bytes it answers with: one exchange a command. */
module CmpControllerExchange {
  import opened CText
  import opened CmpPacket
  import opened CmpCodec
  import opened CmpClientHandler
  import opened CmpRegistry
  import opened CmpKeepAlive
  import opened CmpControlCenter
  import opened CmpController
  import opened CmpWire
  import opened CmpExchange

  function ClientBrought(id: nat, body: Bytes): Fields {
    if body == [] then map[] else ClientFields(id, body)
  }

  ghost predicate Able(k: Controller, device: Device)
    reads k
  {
    k.Valid() && k.Conserved() && Reports(device)
  }

  // Any request of bytes.
  method HandOver(k: Controller, fd: int, p: Bytes, device: Device, ghost id: nat, ghost status: nat, ghost n: nat,
                  ghost body: Bytes)
    requires Able(k, device) && IsPacket(p, id, status, n, body) && id < 0x8000_0000 && |body| <= MAX_DATA_LEN
    modifies k`sent, k`rows, k`history, k`msnSequence, k`vEnquireLink, k`turns
    ensures Able(k, device) && n < 0x1_0000_0000
    ensures k.sent == old(k.sent)
      + PacketsOf(Responses(fd, id, Signed(n), ClientBrought(id, body), device, k.center))
      + LogsOn(id, ClientBrought(id, body), k.center, old(k.msnSequence))
    ensures k.history == old(k.history) + EventsOf(fd, id, ClientBrought(id, body))
    ensures k.rows == After(k.history) && old(k.rows) == After(old(k.history))
  {
    hide Replies, Given, GivenAfter, Responses, After, GetCommand, GetSequence, GetLength, Signed, LogsOn, ClientFields;
    PacketRead(p, id, status, n, body);
    SignedOf(id);
    AckIsNegative(GetCommand(p));
    k.OnCMP(fd, p, device);
  }

  // The states of the ports of a wire that is asked for by its number.
  function StatesOf(device: Device, wire: nat): Bytes {
    if wire == 1 then device.wire1 else if wire == 2 then device.wire2 else []
  }

  // The wire and port of a setting are words, its state is one character.
  lemma WireAsked(w: Bytes, v: nat, rest: Bytes, device: Device)
    requires IsWord(w, v)
    ensures var fields := Number("wire", w + rest);
            |w| == 4 && "wire" in fields && StatusAsked(fields, device) == StatesOf(device, v)
  {
    hide Ntohl, Signed, IsWord, DecimalBytes, FromDecimal;
    WordRead(w, v);
    var s := w + rest;
    FourAtFront(w, rest + ['\0', '\0', '\0', '\0']);
    assert w + rest + ['\0', '\0', '\0', '\0'] == w + (rest + ['\0', '\0', '\0', '\0']);
    DecimalReadBack(IntField(s));
    SignedOf(v);
  }

  method StatesAnswered(k: Controller, fd: int, p: Bytes, device: Device, ghost w: Bytes, ghost v: nat,
                        ghost rest: Bytes, ghost t: Bytes, ghost cut: Bytes, ghost status: nat, ghost n: nat)
    requires Able(k, device) && IsPacket(p, 0x13, status, n, w + rest) && IsWord(w, v) && |rest| <= 2044
    requires CutAt(StatesOf(device, v), t, cut)
    modifies k
    ensures Able(k, device)
    ensures if StatesOf(device, v) == [] then Adds(old(k.sent), k.sent, fd, 0x8000_0013, 0x12, n, [])
            else Adds(old(k.sent), k.sent, fd, 0x8000_0013, 0, n, t + ['\0'])
  {
    hide Replies, Given, GivenAfter, After, IsPacket, IsWord, PacketOf, Bare, WithText, StatusAsked, StatesOf, CString;
    hide Signed, ResponseTo, Reports;
    WireAsked(w, v, rest, device);
    CStringCut(t, cut);
    ShortStates(device, v);
    HandOver(k, fd, p, device, 0x13, status, n, w + rest);
    StatesAnswer(fd, w, v, rest, device, k.center, Signed(n));
    BareOnWire(fd, 0x13, 0x12, n);
    TextOnWire(fd, 0x13, n, t);
  }

  lemma ShortStates(device: Device, v: nat)
    requires Reports(device)
    ensures |CString(StatesOf(device, v))| < MAX_DATA_LEN
  {
    assert CString([]) == [];
  }

  lemma StatesAnswer(fd: int, w: Bytes, v: nat, rest: Bytes, device: Device, center: Center, sequence: int)
    requires IsWord(w, v)
    ensures var states := StatesOf(device, v);
            PacketsOf(Responses(fd, 0x13, sequence, ClientBrought(0x13, w + rest), device, center))
            == [PacketOf(if states == [] then Bare(fd, ResponseTo(0x13), 0x12, sequence)
                         else WithText(fd, ResponseTo(0x13), sequence, CString(states)))]
  {
    hide IsWord, PacketOf, Bare, WithText, StatusAsked, StatesOf, CString, ResponseTo;
    WireAsked(w, v, rest, device);
    var states := StatesOf(device, v);
    OnePacket(if states == [] then Bare(fd, ResponseTo(0x13), 0x12, sequence)
              else WithText(fd, ResponseTo(0x13), sequence, CString(states)));
  }

  // A setting is answered if its state is there; nothing at all is written otherwise.
  method SettingAnswered(k: Controller, fd: int, p: Bytes, device: Device, ghost w: Bytes, ghost v: nat, ghost q: Bytes,
                         ghost rest: Bytes, ghost status: nat, ghost n: nat)
    requires Able(k, device) && IsPacket(p, 0x12, status, n, w + (q + rest)) && IsWord(w, v) && |q| == 4
    requires |rest| <= 2040
    modifies k
    ensures Able(k, device)
    ensures if rest == [] || rest[0] == '\0' then k.sent == old(k.sent)
            else Adds(old(k.sent), k.sent, fd, 0x8000_0012,
                      if StatesOf(device, v) == [] || device.setResult == -1 then 0x11 else 0, n, [])
  {
    hide Replies, Given, GivenAfter, After, IsPacket, IsWord, PacketOf, Bare, WithText, StatesOf, Signed, ResponseTo;
    hide Reports, PacketsOf;
    WordRead(w, v);
    HandOver(k, fd, p, device, 0x12, status, n, w + (q + rest));
    SettingAnswer(fd, w, v, q, rest, device, k.center, Signed(n));
    BareOnWire(fd, 0x12, 0x11, n);
    BareOnWire(fd, 0x12, 0, n);
  }

  lemma SettingAnswer(fd: int, w: Bytes, v: nat, q: Bytes, rest: Bytes, device: Device, center: Center, sequence: int)
    requires IsWord(w, v) && |q| == 4
    ensures PacketsOf(Responses(fd, 0x12, sequence, ClientBrought(0x12, w + (q + rest)), device, center))
            == if rest == [] || rest[0] == '\0' then []
               else [PacketOf(Bare(fd, ResponseTo(0x12),
                                   if StatesOf(device, v) == [] || device.setResult == -1 then 0x11 else 0, sequence))]
    ensures LogsOn(0x12, ClientBrought(0x12, w + (q + rest)), center, 0) == []
  {
    hide IsWord, PacketOf, Bare, WithText, StatusAsked, StatesOf, CString, ResponseTo, IntField, IsValidStr;
    hide DecimalBytes;
    var s := w + (q + rest);
    WireAsked(w, v, q + rest, device);
    assert From(s, 8) == rest;
    var fields := ClientFields(0x12, s);
    assert "state" in fields <==> rest != [] && rest[0] != '\0';
    assert fields["wire"] == Number("wire", s)["wire"];
    SameWire(fields, Number("wire", s), device);
    OnePacket(Bare(fd, ResponseTo(0x12),
                   if StatesOf(device, v) == [] || device.setResult == -1 then 0x11 else 0, sequence));
  }

  lemma SameWire(a: Fields, b: Fields, device: Device)
    requires "wire" in a && "wire" in b && a["wire"] == b["wire"]
    ensures StatusAsked(a, device) == StatusAsked(b, device)
  {}

  lemma BindAnswer(fd: int, id: Bytes, device: Device, center: Center, sequence: int, number: int)
    requires NulFree(id) && |id| < 2048
    ensures var fields := ClientBrought(0x01, id + NUL);
            && PacketsOf(Responses(fd, 0x01, sequence, fields, device, center))
               == [PacketOf(Bare(fd, ResponseTo(0x01), if id == [] then 0x41 else 0, sequence))]
            && LogsOn(0x01, fields, center, number) == []
            && EventsOf(fd, 0x01, fields) == if id == [] then [] else [Event.Bind(id, fd)]
  {
    hide PacketOf, Bare, WithText, StringField, ResponseTo;
    OneString("id", id);
    assert id != [] ==> "id" in Filled("id", id);
    OnePacket(Bare(fd, ResponseTo(0x01), if id == [] then 0x41 else 0, sequence));
  }

  method BindAnswered(k: Controller, fd: int, p: Bytes, device: Device, ghost id: Bytes, ghost status: nat,
                      ghost n: nat)
    requires Able(k, device) && IsPacket(p, 0x01, status, n, id + ['\0']) && NulFree(id) && |id| < 2048
    modifies k
    ensures Able(k, device)
    ensures Adds(old(k.sent), k.sent, fd, 0x8000_0001, if id == [] then 0x41 else 0, n, [])
    ensures forall r :: r in k.rows <==>
              (id != [] && r == Row(id, 1, fd)) || (r in old(k.rows) && (id == [] || r.id != id))
  {
    hide Replies, Given, GivenAfter, After, IsPacket, PacketOf, Bare, Responses, LogsOn, EventsOf, ClientBrought;
    hide Signed, ResponseTo, Reports, PacketsOf, NulFree;
    ghost var before := k.history;
    BindAnswer(fd, id, device, k.center, Signed(n), k.msnSequence);
    HandOver(k, fd, p, device, 0x01, status, n, id + NUL);
    BareOnWire(fd, 0x01, if id == [] then 0x41 else 0, n);
    if id == [] {
      assert before + [] == before;
    } else {
      BoundRows(before, id, fd);
    }
  }

  // Unbinding leaves the live rows of other sockets.
  lemma UnboundRows(history: seq<Event>, fd: int)
    ensures forall name, f :: Row(name, 1, f) in After(history + [Unbind(fd)]) <==>
              Row(name, 1, f) in After(history) && f != fd
  {
    AfterMore(history, Unbind(fd));
    forall name, f ensures Row(name, 1, f) in After(history + [Unbind(fd)]) <==>
                             Row(name, 1, f) in After(history) && f != fd
    {
      InDeactivated(After(history), fd, Row(name, 1, f));
    }
  }

  lemma PlainAnswer(fd: int, id: nat, fields: Fields, device: Device, center: Center, sequence: int, number: int)
    requires id < 0x8000_0000 && id !in {0x01, 0x03, 0x12, 0x13, 0x15}
    ensures PacketsOf(Responses(fd, id, sequence, fields, device, center))
         == [PacketOf(Bare(fd, ResponseTo(id), if id == 0x06 then 0 else 0x03, sequence))]
    ensures LogsOn(id, fields, center, number) == []
    ensures EventsOf(fd, id, fields) == if id == 0x06 then [Unbind(fd)] else []
  {
    hide PacketOf, Bare, WithText, ResponseTo;
    OnePacket(Bare(fd, ResponseTo(id), if id == 0x06 then 0 else 0x03, sequence));
  }

  // Unbinding, and ids without a handler, whatever the body.
  method UnbindAnswered(k: Controller, fd: int, p: Bytes, device: Device, ghost status: nat, ghost n: nat,
                        ghost body: Bytes)
    requires Able(k, device) && IsPacket(p, 0x06, status, n, body) && |body| <= 2048
    modifies k
    ensures Able(k, device) && Adds(old(k.sent), k.sent, fd, 0x8000_0006, 0, n, [])
    ensures forall name, f :: Row(name, 1, f) in k.rows <==> Row(name, 1, f) in old(k.rows) && f != fd
  {
    hide Replies, Given, GivenAfter, After, IsPacket, PacketOf, Bare, Responses, LogsOn, EventsOf, ClientBrought;
    hide Signed, ResponseTo, Reports, PacketsOf;
    ghost var before := k.history;
    PlainAnswer(fd, 0x06, ClientBrought(0x06, body), device, k.center, Signed(n), k.msnSequence);
    HandOver(k, fd, p, device, 0x06, status, n, body);
    BareOnWire(fd, 0x06, 0, n);
    UnboundRows(before, fd);
  }

  method UnknownAnswered(k: Controller, fd: int, p: Bytes, device: Device, ghost id: nat, ghost status: nat,
                         ghost n: nat, ghost body: Bytes)
    requires Able(k, device) && IsPacket(p, id, status, n, body) && |body| <= 2048 && id < 0x8000_0000
    requires id !in {0x01, 0x03, 0x06, 0x12, 0x13, 0x15}
    modifies k
    ensures Able(k, device) && Adds(old(k.sent), k.sent, fd, 0x8000_0000 + id, 0x03, n, [])
    ensures k.rows == old(k.rows)
  {
    hide Replies, Given, GivenAfter, After, IsPacket, PacketOf, Bare, Responses, LogsOn, EventsOf, ClientBrought;
    hide Signed, ResponseTo, Reports, PacketsOf;
    ghost var before := k.history;
    PlainAnswer(fd, id, ClientBrought(id, body), device, k.center, Signed(n), k.msnSequence);
    HandOver(k, fd, p, device, id, status, n, body);
    BareOnWire(fd, id, 0x03, n);
    assert before + [] == before;
  }

  // An enquiry is answered to the center, whoever it came from.
  method EnquiryGoesToCenter(k: Controller, fd: int, p: Bytes, device: Device, ghost status: nat, ghost n: nat,
                       ghost body: Bytes)
    requires Able(k, device) && IsPacket(p, 0x15, status, n, body) && |body| <= 2048
    modifies k
    ensures Able(k, device) && k.center == old(k.center)
    ensures if k.center.connected then Adds(old(k.sent), k.sent, k.center.fd, 0x8000_0015, 0, n, [])
            else k.sent == old(k.sent)
  {
    hide Replies, Given, GivenAfter, After, IsPacket, PacketOf, Bare, WithText, ClientFields, Signed, ResponseTo;
    hide Reports;
    HandOver(k, fd, p, device, 0x15, status, n, body);
    BareOnWire(k.center.fd, 0x15, 0, n);
    OnePacket(Bare(k.center.fd, ResponseTo(0x15), 0, Signed(n)));
  }

  lemma LogFields(kind: Byte, log: Bytes)
    requires NulFree(log) && |log| < MAX_SIZE
    ensures var fields := ClientBrought(0x03, [kind] + (log + NUL));
            && ("type" in fields <==> kind != '\0') && ("data" in fields <==> log != [])
            && ("type" in fields ==> fields["type"] == [kind]) && ("data" in fields ==> fields["data"] == log)
  {
    hide StringField;
    var body: Bytes := [kind] + (log + NUL);
    OneString("data", log);
    assert From(body, 1) == log + NUL;
  }

  // An accepted log goes on to the center, with a number of its own.
  method LogAnswered(k: Controller, fd: int, p: Bytes, device: Device, ghost kind: Byte, ghost log: Bytes,
                     ghost status: nat, ghost n: nat)
    requires Able(k, device) && IsPacket(p, 0x03, status, n, [kind] + (log + ['\0'])) && NulFree(log) && |log| <= 2046
    modifies k
    ensures Able(k, device) && k.center == old(k.center)
    ensures kind == '\0' || log == [] ==> Adds(old(k.sent), k.sent, fd, 0x8000_0003, 0x40, n, [])
    ensures kind != '\0' && log != [] && !k.center.connected ==> Adds(old(k.sent), k.sent, fd, 0x8000_0003, 0, n, [])
    ensures kind != '\0' && log != [] && k.center.connected ==>
              exists t, next :: Adds(old(k.sent), t, fd, 0x8000_0003, 0, n, [])
                                && IsNext(old(k.msnSequence), next)
                                && Adds(t, k.sent, k.center.fd, 0x03, 0, next, [kind] + (log + ['\0']))
  {
    hide Replies, Given, GivenAfter, After, IsPacket, PacketOf, Bare, WithText, ClientFields, Signed, ResponseTo;
    hide Reports, LogPacket;
    ghost var was, number := k.sent, k.msnSequence;
    LogFields(kind, log);
    HandOver(k, fd, p, device, 0x03, status, n, [kind] + (log + NUL));
    BareOnWire(fd, 0x03, 0x40, n);
    BareOnWire(fd, 0x03, 0, n);
    OnePacket(Bare(fd, ResponseTo(0x03), 0x40, Signed(n)));
    OnePacket(Bare(fd, ResponseTo(0x03), 0, Signed(n)));
    if kind != '\0' && log != [] && k.center.connected {
      LogOnWire(kind, log, NextSequence(number));
      ghost var t := was + [k.sent[|was|]];
      assert Adds(was, t, fd, 0x8000_0003, 0, n, []);
      assert Adds(t, k.sent, k.center.fd, 0x03, 0, NextSequence(number), [kind] + (log + NUL));
    }
  }

  lemma LogOnWire(kind: Byte, log: Bytes, next: nat)
    requires |log| <= 2046 && next < 0x8000_0000
    ensures IsPacket(LogPacket([kind], log, next), 0x03, 0, next, [kind] + (log + NUL))
  {
    hide IsPacket, Header, Unsigned;
    PacketWritten(0x03, STATUS_ROK, next, [kind] + (log + NUL));
    UnsignedOf(0x03);
    UnsignedOf(STATUS_ROK);
    UnsignedOf(next);
  }

  // The requests that need a body, when there is none.
  method EmptyAnswered(k: Controller, fd: int, p: Bytes, device: Device, ghost id: nat, ghost status: nat, ghost n: nat)
    requires Able(k, device) && IsPacket(p, id, status, n, []) && id in {0x01, 0x03, 0x12, 0x13}
    modifies k
    ensures Able(k, device)
    ensures if id == 0x12 then k.sent == old(k.sent)
            else Adds(old(k.sent), k.sent, fd, 0x8000_0000 + id, if id == 0x01 then 0x41 else 0x40, n, [])
  {
    hide Replies, Given, GivenAfter, After, IsPacket, PacketOf, Bare, WithText, ClientFields, Signed, ResponseTo;
    hide Reports;
    HandOver(k, fd, p, device, id, status, n, []);
    BareOnWire(fd, id, if id == 0x01 then 0x41 else 0x40, n);
    OnePacket(Bare(fd, ResponseTo(id), if id == 0x01 then 0x41 else 0x40, Signed(n)));
  }
}
