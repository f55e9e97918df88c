/** The AW-2401 controller: its device table, its answers over any history of packets, and where it stays silent. */
module CmpController {
  import opened CText
  import opened JsonTree
  import opened CmpPacket
  import opened CmpCodec
  import opened CmpClientHandler
  import opened CmpEncoder
  import opened CmpHandler
  import opened CmpRegistry
  import opened CmpKeepAlive
  import opened CmpControlCenter

  // The power device: the port states of its two wires, empty if they cannot be read, and the outcome of a setting.
  datatype Device = Device(wire1: Bytes, wire2: Bytes, setResult: int)

  function PortStatus(device: Device, wire: int): Bytes {
    if wire == 1 then device.wire1 else if wire == 2 then device.wire2 else []
  }

  predicate Reports(device: Device) {
    |CString(device.wire1)| < MAX_DATA_LEN && |CString(device.wire2)| < MAX_DATA_LEN
  }

  lemma ShortWires(device: Device)
    requires Reports(device)
    ensures forall wire :: |CString(PortStatus(device, wire))| < MAX_DATA_LEN
  {}

  predicate IsServed(command: int) {
    command in {BIND_REQUEST, UNBIND_REQUEST, ACCESS_LOG_REQUEST, ENQUIRE_LINK_REQUEST,
                POWER_PORT_STATE_REQUEST, POWER_PORT_SET_REQUEST}
  }

  // The states of the wire that a request names.
  function StatusAsked(fields: Fields, device: Device): Bytes
    requires "wire" in fields
  {
    PortStatus(device, FromDecimal(fields["wire"]))
  }

  predicate IsSetting(fields: Fields) {
    "wire" in fields && "port" in fields && "state" in fields
  }

  // The status of the response, but for enquiries and incomplete power settings.
  function ClientStatus(command: int, fields: Fields, device: Device): (r: int)
    ensures IsInt32(r)
  {
    if command == BIND_REQUEST then if fields != map[] then STATUS_ROK else STATUS_RINVCTRLID
    else if command == UNBIND_REQUEST then STATUS_ROK
    else if command == ACCESS_LOG_REQUEST then
      if "type" in fields && "data" in fields then STATUS_ROK else STATUS_RINVBODY
    else if command == POWER_PORT_STATE_REQUEST then
      if "wire" !in fields then STATUS_RINVBODY
      else if StatusAsked(fields, device) == [] then STATUS_RPPSTAFAIL else STATUS_ROK
    else if command == POWER_PORT_SET_REQUEST then
      if !IsSetting(fields) || StatusAsked(fields, device) == [] || device.setResult == -1 then STATUS_RPPSFAIL
      else STATUS_ROK
    else STATUS_RINVCMDID
  }

  // The connection to the control center.
  datatype Center = Center(fd: int, connected: bool)

  // All responses one request causes.
  function Responses(fd: int, command: int, sequence: int, fields: Fields, device: Device, center: Center): seq<Reply> {
    if command == ENQUIRE_LINK_REQUEST then
      if center.connected then [Bare(center.fd, ResponseTo(command), STATUS_ROK, sequence)] else []
    else if command == POWER_PORT_SET_REQUEST && !IsSetting(fields) then []
    else if command == POWER_PORT_STATE_REQUEST && ClientStatus(command, fields, device) == STATUS_ROK then
      [WithText(fd, ResponseTo(command), sequence, CString(StatusAsked(fields, device)))]
    else [Bare(fd, ResponseTo(command), ClientStatus(command, fields, device), sequence)]
  }

  // The packet that answers an enquiry.
  function EnquiryAnswer(center: Center, sequence: int): seq<Sent> {
    if !center.connected then []
    else [Sent(center.fd, Header(HEADER_SIZE, ResponseTo(ENQUIRE_LINK_REQUEST), STATUS_ROK, sequence))]
  }

  function PacketsOf(replies: seq<Reply>): seq<Sent> {
    if replies == [] then [] else [PacketOf(replies[0])] + PacketsOf(replies[1..])
  }

  // What goes on to the center besides: an accepted log.
  function LogsOn(command: int, fields: Fields, center: Center, n: int): seq<Sent> {
    if command == ACCESS_LOG_REQUEST && "type" in fields && "data" in fields && center.connected then
      [Sent(center.fd, LogPacket(fields["type"], fields["data"], NextSequence(n)))]
    else []
  }

  // What a request does to the device table.
  function EventsOf(fd: int, command: int, fields: Fields): seq<Event> {
    if command == BIND_REQUEST && "id" in fields then [Event.Bind(fields["id"], fd)]
    else if command == UNBIND_REQUEST then [Unbind(fd)]
    else []
  }

  // A packet handed to the controller while its connection to the center was this one.
  datatype Turn = Turn(fd: int, packet: Bytes, center: Center)

  predicate IsRequest(t: Turn) {
    |t.packet| >= HEADER_SIZE && !IsAckPacket(GetCommand(t.packet))
  }

  // What a requester is owed, and what is given for its request.
  function Owed(t: Turn): seq<Due> {
    if !IsRequest(t) then [] else [Due(t.fd, ResponseTo(GetCommand(t.packet)), GetSequence(t.packet))]
  }

  function GivenFor(t: Turn): seq<Due> {
    if !IsRequest(t) then []
    else
      var command := GetCommand(t.packet);
      if command == ENQUIRE_LINK_REQUEST then
        if t.center.connected then [Due(t.center.fd, ResponseTo(command), GetSequence(t.packet))] else []
      else if command == POWER_PORT_SET_REQUEST && !IsSetting(ClientFieldsIn(t.packet)) then []
      else Owed(t)
  }

  function OwedAfter(turns: seq<Turn>): seq<Due> {
    if turns == [] then [] else OwedAfter(turns[..|turns| - 1]) + Owed(turns[|turns| - 1])
  }

  function GivenAfter(turns: seq<Turn>): seq<Due> {
    if turns == [] then [] else GivenAfter(turns[..|turns| - 1]) + GivenFor(turns[|turns| - 1])
  }

  // An enquiry on the connection to the center, or a power setting with all its fields, or any other packet.
  predicate Regular(t: Turn) {
    IsRequest(t) ==>
      && (GetCommand(t.packet) == ENQUIRE_LINK_REQUEST ==> t.center == Center(t.fd, true))
      && (GetCommand(t.packet) == POWER_PORT_SET_REQUEST ==> IsSetting(ClientFieldsIn(t.packet)))
  }

  lemma OneTurn(t: Turn)
    ensures |GivenFor(t)| <= |Owed(t)| && (GivenFor(t) == Owed(t) <==> Regular(t))
  {}

  lemma {:induction false} NeverMore(turns: seq<Turn>)
    ensures |GivenAfter(turns)| <= |OwedAfter(turns)|
  {
    if turns != [] {
      OneTurn(turns[|turns| - 1]);
      NeverMore(turns[..|turns| - 1]);
    }
  }

  lemma SplitEqual<T>(a: seq<T>, b: seq<T>, c: seq<T>, d: seq<T>)
    requires a + b == c + d && |b| == |d|
    ensures a == c && b == d
  {
    assert a == (a + b)[..|a|] && b == (a + b)[|a|..];
    assert c == (c + d)[..|c|] && d == (c + d)[|c|..];
  }

  // Over any history, everyone is given what is owed to them if and only if no turn was one of the exceptions.
  lemma {:induction false} OwedIfRegular(turns: seq<Turn>)
    ensures GivenAfter(turns) == OwedAfter(turns) <==> forall t | t in turns :: Regular(t)
  {
    if turns != [] {
      var before, t := turns[..|turns| - 1], turns[|turns| - 1];
      assert turns == before + [t];
      OwedIfRegular(before);
      OneTurn(t);
      if GivenAfter(turns) == OwedAfter(turns) {
        NeverMore(before);
        SplitEqual(GivenAfter(before), GivenFor(t), OwedAfter(before), Owed(t));
      }
    }
  }

  lemma OwedAfterMore(turns: seq<Turn>, t: Turn)
    ensures OwedAfter(turns + [t]) == OwedAfter(turns) + Owed(t)
    ensures GivenAfter(turns + [t]) == GivenAfter(turns) + GivenFor(t)
  {
    assert (turns + [t])[..|turns|] == turns;
  }

  // The responses of the specification are those given for the turn.
  lemma ResponsesGiven(t: Turn, device: Device)
    requires IsRequest(t)
    ensures var p := t.packet;
            Given(Responses(t.fd, GetCommand(p), GetSequence(p), ClientFieldsIn(p), device, t.center)) == GivenFor(t)
  {
    hide Given, GetCommand, GetSequence, ClientFieldsIn, StatusAsked, IsAckPacket, ResponseTo, CString;
    var p := t.packet;
    var replies := Responses(t.fd, GetCommand(p), GetSequence(p), ClientFieldsIn(p), device, t.center);
    assert |replies| == |GivenFor(t)| <= 1;
    assert replies != [] ==> GivenFor(t)[0] == Due(replies[0].fd, replies[0].command, replies[0].sequence);
  }

  lemma {:induction false} GivenTogether(a: seq<Reply>, b: seq<Reply>)
    ensures Given(a + b) == Given(a) + Given(b)
  {
    if b == [] {
      assert a + b == a && Given(a) + [] == Given(a);
    } else {
      var c := b[..|b| - 1];
      assert (a + b)[..|a + b| - 1] == a + c;
      GivenTogether(a, c);
    }
  }

  // An instance of the one exception: an enquiry of a client is answered to the center.
  lemma ClientEnquiryGoesToCenter(fd: int, other: int, sequence: int)
    requires fd != other && IsInt32(sequence)
    ensures var t := Turn(fd, Header(HEADER_SIZE, ENQUIRE_LINK_REQUEST, STATUS_ROK, sequence), Center(other, true));
            && GivenFor(t) == [Due(other, ENQUIRE_LINK_RESPONSE, sequence)]
            && Owed(t) == [Due(fd, ENQUIRE_LINK_RESPONSE, sequence)]
  {
    var p := Header(HEADER_SIZE, ENQUIRE_LINK_REQUEST, STATUS_ROK, sequence);
    assert p + [] == p;
    HeaderRoundTrip(HEADER_SIZE, ENQUIRE_LINK_REQUEST, STATUS_ROK, sequence, []);
    AckIsNegative(ENQUIRE_LINK_REQUEST);
    ResponseSetsTheBit(ENQUIRE_LINK_REQUEST);
  }

  // An instance of the other: a power setting without a body is not answered at all.
  lemma SilentSetting(fd: int, sequence: int, center: Center)
    requires IsInt32(sequence)
    ensures var t := Turn(fd, Header(HEADER_SIZE, POWER_PORT_SET_REQUEST, STATUS_ROK, sequence), center);
            GivenFor(t) == [] && |Owed(t)| == 1
  {
    hide Header, IsAckPacket, GetCommand, GetLength, GetSequence, ClientFields, ResponseTo;
    var p := Header(HEADER_SIZE, POWER_PORT_SET_REQUEST, STATUS_ROK, sequence);
    assert p + [] == p;
    HeaderRoundTrip(HEADER_SIZE, POWER_PORT_SET_REQUEST, STATUS_ROK, sequence, []);
    AckIsNegative(POWER_PORT_SET_REQUEST);
    assert "wire" !in ClientFieldsIn(p);
  }

  lemma ClientBindFields(p: Bytes)
    requires |p| >= HEADER_SIZE && GetCommand(p) == BIND_REQUEST
    ensures ClientFieldsIn(p) == map[] || "id" in ClientFieldsIn(p)
  {}

  class Controller {
    var rows: Rows
    var vEnquireLink: seq<int>
    var msnSequence: int
    var center: Center
    var sent: seq<Sent>
    ghost var history: seq<Event>
    ghost var turns: seq<Turn>

    ghost predicate Valid()
      reads this
    {
      rows == After(history) && 0 <= msnSequence < 0x7FFF_FFFF
    }

    // The responses written are those given for the turns so far, in order.
    ghost predicate Conserved()
      reads this
    {
      Given(Replies(sent)) == GivenAfter(turns)
    }

    constructor (center: Center)
      ensures Valid() && Conserved() && history == [] && turns == []
      ensures vEnquireLink == [] && sent == [] && this.center == center
    {
      rows, vEnquireLink, msnSequence, sent, history, turns := [], [], 0, [], [], [];
      this.center := center;
    }

    method SendCommandToClient(fd: int, command: int, status: int, sequence: int)
      requires IsInt32(command) && IsInt32(status) && IsInt32(sequence)
      modifies this`sent
      ensures sent == old(sent) + [Sent(fd, Header(HEADER_SIZE, ResponseTo(command), status, sequence))]
      ensures Replies(sent) == Replies(old(sent)) + [Bare(fd, ResponseTo(command), status, sequence)]
      ensures sent == old(sent) + PacketsOf([Bare(fd, ResponseTo(command), status, sequence)])
    {
      OnePacket(Bare(fd, ResponseTo(command), status, sequence));
      var s := HeaderPacket(fd, ResponseTo(command), status, sequence);
      ResponseSetsTheBit(command);
      RepliesOfMore(sent, s);
      sent := sent + [s];
    }

    // Only while the connection stands.
    method SendCommandToCenter(command: int, status: int, sequence: int)
      requires IsInt32(command) && IsInt32(status) && IsInt32(sequence)
      modifies this`sent
      ensures var s := Sent(center.fd, Header(HEADER_SIZE, ResponseTo(command), status, sequence));
        sent == old(sent) + (if center.connected then [s] else [])
      ensures Replies(sent) == Replies(old(sent))
        + (if center.connected then [Bare(center.fd, ResponseTo(command), status, sequence)] else [])
      ensures sent == old(sent)
        + PacketsOf(if center.connected then [Bare(center.fd, ResponseTo(command), status, sequence)] else [])
    {
      hide Header, Replies, ResponseTo, PacketOf;
      if center.connected {
        SendCommandToClient(center.fd, command, status, sequence);
      }
    }

    // Every handler adds the responses of its request to what was sent.
    ghost predicate Answers(was: seq<Sent>, fd: int, command: int, sequence: int, fields: Fields, device: Device)
      reads this
    {
      Replies(sent) == Replies(was) + Responses(fd, command, sequence, fields, device, center)
    }

    // Nothing else was written but a log that goes on to the center.
    ghost predicate Wrote(was: seq<Sent>, fd: int, command: int, sequence: int, fields: Fields, device: Device, n: int)
      reads this
    {
      sent == was + PacketsOf(Responses(fd, command, sequence, fields, device, center))
                + LogsOn(command, fields, center, n)
    }

    method CmpBind(fd: int, command: int, sequence: int, fields: Fields, ghost device: Device)
      requires command == BIND_REQUEST && IsInt32(sequence) && Valid() && (fields == map[] || "id" in fields)
      modifies this`sent, this`rows, this`history
      ensures Valid() && Answers(old(sent), fd, command, sequence, fields, device)
      ensures Wrote(old(sent), fd, command, sequence, fields, device, old(msnSequence))
      ensures history == old(history) + (if "id" in fields then [Event.Bind(fields["id"], fd)] else [])
    {
      hide Replies, ResponseTo, Bare, WithText, After;
      if 0 < |fields| {
        var id := fields["id"];
        rows := WithoutId(rows, id);
        rows := rows + [Row(id, 1, fd)];
        AfterMore(history, Event.Bind(id, fd));
        history := history + [Event.Bind(id, fd)];
        SendCommandToClient(fd, command, STATUS_ROK, sequence);
      } else {
        SendCommandToClient(fd, command, STATUS_RINVCTRLID, sequence);
      }
    }

    method SetUnbindState(fd: int)
      requires Valid()
      modifies this`rows, this`history
      ensures Valid() && history == old(history) + [Unbind(fd)]
    {
      rows := Deactivated(rows, fd);
      AfterMore(history, Unbind(fd));
      history := history + [Unbind(fd)];
    }

    // The socket no longer holds any id.
    method CmpUnbind(fd: int, command: int, sequence: int, ghost fields: Fields, ghost device: Device)
      requires command == UNBIND_REQUEST && IsInt32(sequence) && Valid()
      modifies this`sent, this`rows, this`history
      ensures Valid() && Answers(old(sent), fd, command, sequence, fields, device)
      ensures Wrote(old(sent), fd, command, sequence, fields, device, old(msnSequence))
      ensures history == old(history) + [Unbind(fd)] && forall id :: !IsBound(history, id, fd)
    {
      hide Replies, ResponseTo, Bare, WithText, After;
      SetUnbindState(fd);
      forall id ensures !IsBound(history, id, fd) {
        BindingStep(old(history), Unbind(fd), id, fd);
      }
      SendCommandToClient(fd, command, STATUS_ROK, sequence);
    }

    // Answers on the connection to the center, with the sequence number of the enquiry.
    method CmpEnquireLink(fd: int, command: int, sequence: int, ghost fields: Fields, ghost device: Device)
      requires command == ENQUIRE_LINK_REQUEST && IsInt32(sequence)
      modifies this`sent
      ensures Answers(old(sent), fd, command, sequence, fields, device)
      ensures Wrote(old(sent), fd, command, sequence, fields, device, old(msnSequence))
      ensures sent == old(sent) + EnquiryAnswer(center, sequence)
    {
      hide Header, Replies, ResponseTo, PacketOf, PacketsOf, Bare;
      SendCommandToCenter(command, STATUS_ROK, sequence);
    }

    // The log is passed on to the center, with its type as one character, while the connection stands.
    method CmpAccessLogRequest(kind: Bytes, log: Bytes)
      requires Valid()
      modifies this`sent, this`msnSequence
      ensures Valid() && Replies(sent) == Replies(old(sent)) && msnSequence == NextSequence(old(msnSequence))
      ensures var s := Sent(center.fd, LogPacket(kind, log, msnSequence));
        sent == old(sent) + (if center.connected then [s] else [])
    {
      msnSequence := NextSequence(msnSequence);
      if center.connected {
        LogIsNoReply(center.fd, kind, log, msnSequence);
        RepliesOfMore(sent, Sent(center.fd, LogPacket(kind, log, msnSequence)));
        sent := sent + [Sent(center.fd, LogPacket(kind, log, msnSequence))];
      }
    }

    method CmpAccessLog(fd: int, command: int, sequence: int, fields: Fields, ghost device: Device)
      requires command == ACCESS_LOG_REQUEST && IsInt32(sequence) && Valid()
      modifies this`sent, this`msnSequence
      ensures Valid() && Answers(old(sent), fd, command, sequence, fields, device)
      ensures Wrote(old(sent), fd, command, sequence, fields, device, old(msnSequence))
    {
      hide Replies, ResponseTo, Bare, WithText, After, LogPacket;
      if 0 < |fields| && "type" in fields && "data" in fields {
        SendCommandToClient(fd, command, STATUS_ROK, sequence);
        CmpAccessLogRequest(fields["type"], fields["data"]);
      } else {
        SendCommandToClient(fd, command, STATUS_RINVBODY, sequence);
      }
    }

    method CmpPowerPortState(fd: int, command: int, sequence: int, fields: Fields, device: Device)
      requires command == POWER_PORT_STATE_REQUEST && IsInt32(sequence) && Reports(device)
      modifies this`sent
      ensures Answers(old(sent), fd, command, sequence, fields, device)
      ensures Wrote(old(sent), fd, command, sequence, fields, device, old(msnSequence))
    {
      hide Replies, ReplyIn, Bare, WithText, CString, FromDecimal, IsAckPacket, Header, ResponseTo, PortStatus;
      ShortWires(device);
      if 0 < |fields| && "wire" in fields {
        var strState := PortStatus(device, FromDecimal(fields["wire"]));
        if strState != [] {
          ResponseSetsTheBit(command);
          TextPacket(fd, POWER_PORT_STATE_RESPONSE, sequence, CString(strState));
          var s := StringPacket(fd, POWER_PORT_STATE_RESPONSE, sequence, strState);
          RepliesOfMore(sent, s);
          sent := sent + [s];
        } else {
          SendCommandToClient(fd, command, STATUS_RPPSTAFAIL, sequence);
        }
      } else {
        SendCommandToClient(fd, command, STATUS_RINVBODY, sequence);
      }
    }

    // Without all three fields nothing is sent.
    method CmpPowerPortSet(fd: int, command: int, sequence: int, fields: Fields, device: Device)
      requires command == POWER_PORT_SET_REQUEST && IsInt32(sequence)
      modifies this`sent
      ensures Answers(old(sent), fd, command, sequence, fields, device)
      ensures Wrote(old(sent), fd, command, sequence, fields, device, old(msnSequence))
    {
      hide Replies, ResponseTo, Bare, WithText, FromDecimal;
      if 0 < |fields| && "wire" in fields && "port" in fields && "state" in fields {
        var strState := PortStatus(device, FromDecimal(fields["wire"]));
        if strState == [] {
          SendCommandToClient(fd, command, STATUS_RPPSFAIL, sequence);
          return;
        }
        if -1 != device.setResult {
          SendCommandToClient(fd, command, STATUS_ROK, sequence);
        } else {
          SendCommandToClient(fd, command, STATUS_RPPSFAIL, sequence);
        }
      }
    }

    method AckPacket(fd: int, command: int)
      modifies this`vEnquireLink
      ensures vEnquireLink == if command == ENQUIRE_LINK_RESPONSE then WithoutFirst(old(vEnquireLink), fd)
                              else old(vEnquireLink)
    {
      if command == ENQUIRE_LINK_RESPONSE {
        vEnquireLink := RemoveFirst(vEnquireLink, fd);
      }
    }

    // The request branch of onClientCMP and onCenterCMP: through the table of handlers, or refused.
    method OnRequest(fd: int, p: Bytes, device: Device)
      requires |p| >= HEADER_SIZE && 0 <= GetCommand(p) && Valid() && Reports(device)
      modifies this`sent, this`rows, this`history, this`msnSequence
      ensures Valid() && Answers(old(sent), fd, GetCommand(p), GetSequence(p), ClientFieldsIn(p), device)
      ensures Wrote(old(sent), fd, GetCommand(p), GetSequence(p), ClientFieldsIn(p), device, old(msnSequence))
      ensures GetCommand(p) == ENQUIRE_LINK_REQUEST ==> sent == old(sent) + EnquiryAnswer(center, GetSequence(p))
      ensures history == old(history) + EventsOf(fd, GetCommand(p), ClientFieldsIn(p))
    {
      hide Replies, ResponseTo, Bare, WithText, After, ClientFields, FromDecimal, Header, Reports;
      var command, sequence := GetCommand(p), GetSequence(p);
      var rData, nRet := ParseClientBody(p);
      if 0xFF < command || !IsServed(command) {
        SendCommandToClient(fd, command, STATUS_RINVCMDID, sequence);
      } else if command == BIND_REQUEST {
        ClientBindFields(p);
        CmpBind(fd, command, sequence, rData.mapData, device);
      } else if command == UNBIND_REQUEST {
        CmpUnbind(fd, command, sequence, rData.mapData, device);
      } else if command == ACCESS_LOG_REQUEST {
        CmpAccessLog(fd, command, sequence, rData.mapData, device);
      } else if command == ENQUIRE_LINK_REQUEST {
        CmpEnquireLink(fd, command, sequence, rData.mapData, device);
      } else if command == POWER_PORT_STATE_REQUEST {
        CmpPowerPortState(fd, command, sequence, rData.mapData, device);
      } else {
        CmpPowerPortSet(fd, command, sequence, rData.mapData, device);
      }
    }

    // onClientCMP and onCenterCMP.
    method OnCMP(fd: int, p: Bytes, device: Device)
      requires |p| >= HEADER_SIZE && Valid() && Conserved() && Reports(device)
      modifies this`sent, this`rows, this`history, this`msnSequence, this`vEnquireLink, this`turns
      ensures Valid() && Conserved() && turns == old(turns) + [Turn(fd, p, center)]
      ensures IsAckPacket(GetCommand(p)) ==>
                && sent == old(sent) && history == old(history)
                && vEnquireLink == (if GetCommand(p) == ENQUIRE_LINK_RESPONSE then WithoutFirst(old(vEnquireLink), fd)
                                    else old(vEnquireLink))
      ensures !IsAckPacket(GetCommand(p)) ==>
                && Answers(old(sent), fd, GetCommand(p), GetSequence(p), ClientFieldsIn(p), device)
                && Wrote(old(sent), fd, GetCommand(p), GetSequence(p), ClientFieldsIn(p), device, old(msnSequence))
                && vEnquireLink == old(vEnquireLink)
                && history == old(history) + EventsOf(fd, GetCommand(p), ClientFieldsIn(p))
      ensures GetCommand(p) == ENQUIRE_LINK_REQUEST ==> sent == old(sent) + EnquiryAnswer(center, GetSequence(p))
    {
      hide Replies, Responses, ClientFieldsIn, IsAckPacket, Reports, Header, After, GivenAfter, Given, EnquiryAnswer;
      hide GetCommand;
      ghost var t := Turn(fd, p, center);
      ghost var was := Replies(sent);
      AckIsNegative(GetCommand(p));
      if IsAckPacket(GetCommand(p)) {
        AckPacket(fd, GetCommand(p));
        NothingForAck(turns, t);
      } else {
        OnRequest(fd, p, device);
        ConservedTurn(was, turns, t, device);
      }
      turns := turns + [t];
    }

    // So each requester has got its one response if and only if no turn was an exception.
    lemma EachOnce()
      requires Conserved()
      ensures Given(Replies(sent)) == OwedAfter(turns) <==> forall t | t in turns :: Regular(t)
    {
      OwedIfRegular(turns);
    }
  }

  lemma OnePacket(r: Reply)
    ensures PacketsOf([r]) == [PacketOf(r)]
    ensures r.body == [] ==> PacketOf(r) == Sent(r.fd, Header(r.length, r.command, r.status, r.sequence))
  {
    assert [r][1..] == [];
    var header := Header(r.length, r.command, r.status, r.sequence);
    assert header + [] == header;
  }

  lemma TextPacket(fd: int, command: int, sequence: int, t: Bytes)
    ensures PacketsOf([WithText(fd, command, sequence, t)])
         == [Sent(fd, Header(HEADER_SIZE + |t| + 1, command, STATUS_ROK, sequence) + (t + NUL))]
  {
    hide Header;
    OnePacket(WithText(fd, command, sequence, t));
  }

  lemma NothingForAck(turns: seq<Turn>, t: Turn)
    requires |t.packet| >= HEADER_SIZE && IsAckPacket(GetCommand(t.packet))
    ensures GivenAfter(turns + [t]) == GivenAfter(turns)
  {
    OwedAfterMore(turns, t);
    assert GivenAfter(turns) + [] == GivenAfter(turns);
  }

  // The responses to a request keep what is written and what is given the same.
  lemma ConservedTurn(was: seq<Reply>, turns: seq<Turn>, t: Turn, device: Device)
    requires IsRequest(t) && Given(was) == GivenAfter(turns)
    ensures var p := t.packet;
            Given(was + Responses(t.fd, GetCommand(p), GetSequence(p), ClientFieldsIn(p), device, t.center))
            == GivenAfter(turns + [t])
  {
    hide Responses, GivenFor, ClientFieldsIn, IsAckPacket;
    var p := t.packet;
    OwedAfterMore(turns, t);
    ResponsesGiven(t, device);
    GivenTogether(was, Responses(t.fd, GetCommand(p), GetSequence(p), ClientFieldsIn(p), device, t.center));
  }

  function LogPacket(kind: Bytes, log: Bytes, sequence: int): Bytes {
    Header(HEADER_SIZE + |kind| + |log| + 1, ACCESS_LOG_REQUEST, STATUS_ROK, sequence) + (kind + (log + NUL))
  }

  lemma LogIsNoReply(fd: int, kind: Bytes, log: Bytes, sequence: int)
    requires IsInt32(sequence)
    ensures ReplyIn(Sent(fd, LogPacket(kind, log, sequence))) == []
  {
    hide Header, ReplyIn, Signed;
    var length := HEADER_SIZE + |kind| + |log| + 1;
    SameHeader(length, ACCESS_LOG_REQUEST, STATUS_ROK, sequence);
    ReplyInHeader(fd, Signed(length), ACCESS_LOG_REQUEST, STATUS_ROK, sequence, kind + (log + NUL));
  }

  // A length too large for an int is cut to one.
  lemma SameHeader(length: nat, command: int, status: int, sequence: int)
    ensures Header(length, command, status, sequence) == Header(Signed(length), command, status, sequence)
  {
    hide Htonl, Signed, Unsigned;
    UnsignedSigned(length);
    SameHtonl(length, Signed(length));
  }

  lemma UnsignedSigned(n: int)
    ensures Unsigned(Signed(n)) == Unsigned(n)
  {
    var u := n % 0x1_0000_0000;
    assert (u - 0x1_0000_0000) % 0x1_0000_0000 == u;
  }

  lemma SameHtonl(a: int, b: int)
    requires Unsigned(a) == Unsigned(b)
    ensures Htonl(a) == Htonl(b)
  {
    hide Unsigned;
  }
}
