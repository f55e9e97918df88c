/** CControlCenter: dispatch of received packets, the request handlers, and one round of the keep-alive. */
module CmpControlCenter {
  import opened CText
  import opened JsonTree
  import opened CmpPacket
  import opened CmpCodec
  import opened CmpHandler
  import opened CmpEncoder
  import opened CmpRegistry
  import opened CmpKeepAlive

  datatype Sent = Sent(fd: int, packet: Bytes)

  datatype Reply = Reply(fd: int, length: int, command: int, status: int, sequence: int, body: Bytes)

  // A response that is a header only, and one with a string.
  function Bare(fd: int, command: int, status: int, sequence: int): Reply {
    Reply(fd, HEADER_SIZE, command, status, sequence, [])
  }

  function WithText(fd: int, command: int, sequence: int, data: Bytes): Reply {
    Reply(fd, HEADER_SIZE + |data| + 1, command, STATUS_ROK, sequence, data + NUL)
  }

  // The packets with the acknowledgement bit, taken apart.
  function Replies(sent: seq<Sent>): seq<Reply> {
    if sent == [] then [] else ReplyIn(sent[0]) + Replies(sent[1..])
  }

  function ReplyIn(s: Sent): seq<Reply> {
    if |s.packet| >= HEADER_SIZE && IsAckPacket(GetCommand(s.packet)) then
      [Reply(s.fd, GetLength(s.packet), GetCommand(s.packet), GetStatus(s.packet), GetSequence(s.packet),
             s.packet[HEADER_SIZE..])]
    else []
  }

  lemma {:induction false} RepliesOfMore(sent: seq<Sent>, s: Sent)
    ensures Replies(sent + [s]) == Replies(sent) + ReplyIn(s)
  {
    var now := sent + [s];
    if sent == [] {
      assert now[1..] == [];
      assert [] + ReplyIn(s) == ReplyIn(s) + [] == ReplyIn(s);
    } else {
      RepliesOfMore(sent[1..], s);
      assert now[1..] == sent[1..] + [s];
      Assoc(ReplyIn(sent[0]), Replies(sent[1..]), ReplyIn(s));
    }
  }

  // A header, with or without a body, counts as a reply when its id has the bit.
  lemma ReplyInHeader(fd: int, length: int, command: int, status: int, sequence: int, rest: Bytes)
    requires IsInt32(length) && IsInt32(command) && IsInt32(status) && IsInt32(sequence)
    ensures ReplyIn(Sent(fd, Header(length, command, status, sequence) + rest))
         == if command < 0 then [Reply(fd, length, command, status, sequence, rest)] else []
  {
    HeaderRoundTrip(length, command, status, sequence, rest);
    AckIsNegative(command);
    assert (Header(length, command, status, sequence) + rest)[HEADER_SIZE..] == rest;
  }

  predicate IsKnown(command: int) {
    command in {BIND_REQUEST, UNBIND_REQUEST, POWER_PORT_SET_REQUEST, POWER_PORT_STATE_REQUEST, ACCESS_LOG_REQUEST,
                INITIAL_REQUEST, SIGN_UP_REQUEST, MDM_LOGIN_REQUEST, MDM_OPERATE_REQUEST, SDK_TRACKER_REQUEST}
  }

  // The fields a request brings; none if the header leaves no room for a body.
  function FieldsIn(p: Bytes): Fields
    requires |p| >= HEADER_SIZE
  {
    if BodyLength(p) > 0 then BodyFields(GetCommand(p), p[HEADER_SIZE..]) else map[]
  }

  // The id of the response: that of the request with the bit set, but an accepted MDM operation
  // is answered as a login.
  function ReplyId(command: int, fields: Fields): (r: int)
    ensures IsInt32(r)
  {
    if command == MDM_OPERATE_REQUEST && "token" in fields then ResponseTo(MDM_LOGIN_REQUEST) else ResponseTo(command)
  }

  lemma ReplyIdOf(command: int, fields: Fields)
    requires command != MDM_OPERATE_REQUEST
    ensures ReplyId(command, fields) == ResponseTo(command)
  {}

  // A bind request with an id, as an event for the table.
  function BindIn(fd: int, p: Bytes): seq<Event>
    requires |p| >= HEADER_SIZE
  {
    if GetCommand(p) == BIND_REQUEST && "id" in FieldsIn(p) then [Event.Bind(FieldsIn(p)["id"], fd)] else []
  }

  // A packet handed to onCMP, and whom a response is due to.
  datatype Arrival = Arrival(fd: int, packet: Bytes)

  datatype Due = Due(fd: int, command: int, sequence: int)

  // Requests are due one response each, acknowledgements none.
  function DueTo(a: Arrival): seq<Due> {
    var p := a.packet;
    if |p| < HEADER_SIZE || IsAckPacket(GetCommand(p)) then []
    else [Due(a.fd, ReplyId(GetCommand(p), FieldsIn(p)), GetSequence(p))]
  }

  function DueAfter(arrivals: seq<Arrival>): seq<Due> {
    if arrivals == [] then [] else DueAfter(arrivals[..|arrivals| - 1]) + DueTo(arrivals[|arrivals| - 1])
  }

  // Replies without their status.
  function Given(replies: seq<Reply>): (r: seq<Due>)
    ensures |r| == |replies|
    ensures forall i | 0 <= i < |r| :: r[i] == Due(replies[i].fd, replies[i].command, replies[i].sequence)
  {
    if replies == [] then []
    else
      var r := replies[|replies| - 1];
      Given(replies[..|replies| - 1]) + [Due(r.fd, r.command, r.sequence)]
  }

  // The response to a request differs from it in the top bit of the id only, but for the MDM operation.
  lemma DueToRequest(a: Arrival)
    requires |a.packet| >= HEADER_SIZE
    ensures var command := GetCommand(a.packet);
            DueTo(a) == if command < 0 then []
                        else if command == MDM_OPERATE_REQUEST && "token" in FieldsIn(a.packet) then
                          [Due(a.fd, MDM_LOGIN_RESPONSE, GetSequence(a.packet))]
                        else [Due(a.fd, command - 0x8000_0000, GetSequence(a.packet))]
  {
    AckIsNegative(GetCommand(a.packet));
    ResponseSetsTheBit(GetCommand(a.packet));
    ResponseSetsTheBit(MDM_LOGIN_REQUEST);
  }

  lemma DueAfterMore(arrivals: seq<Arrival>, a: Arrival)
    ensures DueAfter(arrivals + [a]) == DueAfter(arrivals) + DueTo(a)
  {
    assert (arrivals + [a])[..|arrivals|] == arrivals;
  }

  lemma GivenMore(replies: seq<Reply>, r: Reply)
    ensures Given(replies + [r]) == Given(replies) + [Due(r.fd, r.command, r.sequence)]
  {
    assert (replies + [r])[..|replies|] == replies;
  }

  // A response to each request keeps what is given and what is due the same.
  lemma ConservedStep(before: seq<Reply>, arrivals: seq<Arrival>, a: Arrival, r: Reply)
    requires |a.packet| >= HEADER_SIZE && Given(before) == DueAfter(arrivals)
    requires r.fd == a.fd && r.sequence == GetSequence(a.packet)
    requires r.command == ReplyId(GetCommand(a.packet), FieldsIn(a.packet))
    ensures !IsAckPacket(GetCommand(a.packet)) ==> Given(before + [r]) == DueAfter(arrivals + [a])
    ensures IsAckPacket(GetCommand(a.packet)) ==> Given(before) == DueAfter(arrivals + [a])
  {
    DueAfterMore(arrivals, a);
    GivenMore(before, r);
  }

  lemma BindFields(p: Bytes)
    requires |p| >= HEADER_SIZE && GetCommand(p) == BIND_REQUEST
    ensures FieldsIn(p) == map[] || "id" in FieldsIn(p)
  {}

  // What the services behind the center say: log and account databases, initial data, and MDM.
  datatype World = World(oid: Text, initData: Bytes, signedUp: bool, token: Bytes, sendResult: int)

  const WIRE_TEXT: Bytes := "{\"count\":1,\"wires\":[{\"wire\":1,"
  const STATE_TEXT: Bytes := "\"state\": \"1111\"}]}"

  function PortStates(): (r: Bytes)
    ensures |r| < MAX_DATA_LEN
  {
    WIRE_TEXT + STATE_TEXT
  }

  // The status of the response, by command.
  function Status(command: int, fields: Fields, rows: Rows, world: World): (r: int)
    ensures IsInt32(r)
  {
    if command == BIND_REQUEST then if "id" in fields then STATUS_ROK else STATUS_RINVCTRLID
    else if command == UNBIND_REQUEST then STATUS_ROK
    else if command == POWER_PORT_SET_REQUEST then
      if "wire" in fields && "port" in fields && "state" in fields && "controller" in fields then STATUS_ROK
      else STATUS_RINVBODY
    else if command == POWER_PORT_STATE_REQUEST then
      if !("wire" in fields && "controller" in fields) then STATUS_RINVBODY
      else if Lookup(rows, fields["controller"]) <= 0 then STATUS_RSYSERR
      else if world.sendResult <= 0 then STATUS_RPPSTAFAIL
      else STATUS_ROK
    else if command == ACCESS_LOG_REQUEST then
      if "type" in fields && "data" in fields && world.oid != [] then STATUS_ROK else STATUS_RINVBODY
    else if command == INITIAL_REQUEST then
      if "type" !in fields then STATUS_RINVBODY else if world.initData == [] then STATUS_RSYSERR else STATUS_ROK
    else if command == SIGN_UP_REQUEST then
      if !("type" in fields && "data" in fields) then STATUS_RINVBODY
      else if world.signedUp then STATUS_ROK else STATUS_RSYSERR
    else if command == MDM_LOGIN_REQUEST then
      if !("account" in fields && "password" in fields) then STATUS_RINVBODY
      else if world.token == [] then STATUS_RMDMLOGINFAIL else STATUS_ROK
    else if command == MDM_OPERATE_REQUEST then if "token" in fields then STATUS_ROK else STATUS_RINVBODY
    else if command == SDK_TRACKER_REQUEST then if "data" in fields then STATUS_ROK else STATUS_RINVBODY
    else STATUS_RINVCMDID
  }

  const OPERATE_TEXT: Bytes := "opreate_json"

  // The string a successful response carries up to its first NUL, for the commands that have one.
  function Data(command: int, world: World): Bytes
    requires CarriesData(command)
  {
    if command == INITIAL_REQUEST then world.initData
    else if command == MDM_LOGIN_REQUEST then world.token
    else if command == MDM_OPERATE_REQUEST then OPERATE_TEXT
    else PortStates()
  }

  predicate CarriesData(command: int) {
    command == INITIAL_REQUEST || command == MDM_LOGIN_REQUEST || command == MDM_OPERATE_REQUEST
    || command == POWER_PORT_STATE_REQUEST
  }

  // The response to a request.
  function Response(fd: int, command: int, sequence: int, fields: Fields, rows: Rows, world: World): Reply {
    var id, status := ReplyId(command, fields), Status(command, fields, rows, world);
    if status == STATUS_ROK && CarriesData(command) then WithText(fd, id, sequence, CString(Data(command, world)))
    else Bare(fd, id, status, sequence)
  }

  // A response as a packet.
  function PacketOf(r: Reply): Sent {
    Sent(r.fd, Header(r.length, r.command, r.status, r.sequence) + r.body)
  }

  // What a request makes the center write: the response, behind or before what goes on to a controller.
  function Written(fd: int, command: int, sequence: int, fields: Fields, rows: Rows, world: World, n: int): seq<Sent> {
    var response := PacketOf(Response(fd, command, sequence, fields, rows, world));
    if command == POWER_PORT_SET_REQUEST && Status(command, fields, rows, world) == STATUS_ROK then
      [response] + PassedOn(rows, fields["controller"], PortPacket(fields, NextSequence(n)))
    else if command == POWER_PORT_STATE_REQUEST && "wire" in fields && "controller" in fields then
      PassedOn(rows, fields["controller"], PortQuestion(fields["wire"], NextSequence(n))) + [response]
    else [response]
  }

  // A packet for the controller bound to that name, if there is one.
  function PassedOn(rows: Rows, name: Text, packet: Bytes): seq<Sent> {
    if Lookup(rows, name) > 0 then [Sent(Lookup(rows, name), packet)] else []
  }

  // Responses with a string body need room for it.
  predicate Fits(world: World) {
    |CString(world.initData)| < MAX_DATA_LEN && |CString(world.token)| < MAX_DATA_LEN
  }

  method Parse(p: Bytes) returns (rData: DataHandler, nRet: int)
    requires |p| >= HEADER_SIZE
    ensures fresh(rData) && rData.mapData == FieldsIn(p) && (0 < nRet <==> FieldsIn(p) != map[])
  {
    rData := new DataHandler();
    nRet := ParseBody(GetCommand(p), p, rData);
    assert map[] + BodyFields(GetCommand(p), p[HEADER_SIZE..]) == BodyFields(GetCommand(p), p[HEADER_SIZE..]);
  }

  function FirstByte(t: Bytes): (r: Bytes)
    ensures |r| == 1
  {
    if t == [] then NUL else t[..1]
  }

  // Wire, port and state, one character each.
  function PortSetting(fields: Fields): (r: Bytes)
    requires "wire" in fields && "port" in fields && "state" in fields
    ensures |r| == 3
  {
    FirstByte(fields["wire"]) + FirstByte(fields["port"]) + FirstByte(fields["state"])
  }

  function PortPacket(fields: Fields, sequence: int): Bytes
    requires "wire" in fields && "port" in fields && "state" in fields
  {
    Header(HEADER_SIZE + 3, POWER_PORT_SET_REQUEST, STATUS_ROK, sequence) + PortSetting(fields)
  }

  function PortQuestion(wire: Bytes, sequence: int): Bytes {
    Header(HEADER_SIZE + 1, POWER_PORT_STATE_REQUEST, STATUS_ROK, sequence) + FirstByte(wire)
  }

  // A packet of a header only.
  method HeaderPacket(fd: int, command: int, status: int, sequence: int) returns (s: Sent)
    requires IsInt32(command) && IsInt32(status) && IsInt32(sequence)
    ensures s == Sent(fd, Header(HEADER_SIZE, command, status, sequence))
    ensures ReplyIn(s) == if command < 0 then [Bare(fd, command, status, sequence)] else []
  {
    var packet := NewPacket();
    SetHeader(packet, HEADER_SIZE, command, status, sequence, Zeros(HEADER_SIZE));
    var header := Header(HEADER_SIZE, command, status, sequence);
    assert header + Zeros(HEADER_SIZE)[HEADER_SIZE..] == header;
    assert header + [] == header;
    ReplyInHeader(fd, HEADER_SIZE, command, status, sequence, []);
    s := Sent(fd, packet[..HEADER_SIZE]);
  }

  // A response with a string as body, up to its first NUL.
  method StringPacket(fd: int, command: int, sequence: int, data: Bytes) returns (s: Sent)
    requires IsInt32(command) && command < 0 && IsInt32(sequence) && |CString(data)| < MAX_DATA_LEN
    ensures var t := CString(data);
            s == Sent(fd, Header(HEADER_SIZE + |t| + 1, command, STATUS_ROK, sequence) + (t + NUL))
    ensures ReplyIn(s) == [WithText(fd, command, sequence, CString(data))]
  {
    hide Header, ReplyIn, Zeros, CString;
    var len := Strlen(data, 0);
    var t := data[..len];
    assert From(data, 0) == data && (len > 0 ==> data[0..len] == t) && t == CString(data);
    var packet := NewPacket();
    var index := AppendString(packet, HEADER_SIZE, t, Zeros(HEADER_SIZE));
    SetHeader(packet, index, command, STATUS_ROK, sequence, Zeros(HEADER_SIZE) + (t + NUL));
    assert (Zeros(HEADER_SIZE) + (t + NUL))[HEADER_SIZE..] == t + NUL;
    ReplyInHeader(fd, index, command, STATUS_ROK, sequence, t + NUL);
    s := Sent(fd, packet[..index]);
  }

  // At most one sequence number was used.
  predicate Counts(before: int, after: int) {
    after == before || after == NextSequence(before)
  }

  // The center's tables and lists, and a log of what it wrote and closed.
  class ControlCenter {
    var rows: Rows
    var vEnquireLink: seq<int>
    var msnSequence: int
    var sent: seq<Sent>
    var closed: seq<int>
    ghost var history: seq<Event>
    ghost var arrivals: seq<Arrival>

    // The table is that of its history.
    ghost predicate Valid()
      reads this
    {
      rows == After(history) && 0 <= msnSequence < 0x7FFF_FFFF
    }

    // The responses written are those due, in order.
    ghost predicate Conserved()
      reads this
    {
      Given(Replies(sent)) == DueAfter(arrivals)
    }

    constructor ()
      ensures Valid() && Conserved() && history == [] && arrivals == []
      ensures vEnquireLink == [] && sent == [] && closed == [] && msnSequence == 0
    {
      rows, vEnquireLink, msnSequence, sent, closed, history, arrivals := [], [], 0, [], [], [], [];
    }

    // getSequence
    method NewSequence() returns (n: int)
      requires 0 <= msnSequence < 0x7FFF_FFFF
      modifies this`msnSequence
      ensures n == msnSequence == NextSequence(old(msnSequence)) && 0 < n < 0x7FFF_FFFF
    {
      msnSequence := msnSequence + 1;
      if 0x7FFF_FFFF <= msnSequence {
        msnSequence := 1;
      }
      n := msnSequence;
    }

    method SendCommand(fd: int, command: int, status: int, sequence: int, isResp: bool)
      requires IsInt32(command) && IsInt32(status) && IsInt32(sequence)
      modifies this`sent
      ensures sent == old(sent)
        + [Sent(fd, Header(HEADER_SIZE, if isResp then ResponseTo(command) else command, status, sequence))]
      ensures isResp ==> Replies(sent) == Replies(old(sent)) + [Bare(fd, ResponseTo(command), status, sequence)]
      ensures !isResp && command >= 0 ==> Replies(sent) == Replies(old(sent))
    {
      var nCommandSend := command;
      if isResp {
        nCommandSend := ResponseTo(command);
      }
      var s := HeaderPacket(fd, nCommandSend, status, sequence);
      ResponseSetsTheBit(command);
      RepliesOfMore(sent, s);
      sent := sent + [s];
    }

    // cmpResponse: a response with a string as body.
    method CmpResponse(fd: int, command: int, sequence: int, data: Bytes)
      requires IsInt32(command) && command < 0 && IsInt32(sequence) && |CString(data)| < MAX_DATA_LEN
      modifies this`sent
      ensures var t := CString(data);
        sent == old(sent) + [Sent(fd, Header(HEADER_SIZE + |t| + 1, command, STATUS_ROK, sequence) + (t + NUL))]
      ensures Replies(sent) == Replies(old(sent)) + [WithText(fd, command, sequence, CString(data))]
    {
      var s := StringPacket(fd, command, sequence, data);
      RepliesOfMore(sent, s);
      sent := sent + [s];
    }

    method Respond(fd: int, command: int, status: int, sequence: int)
      requires IsInt32(command) && IsInt32(status) && IsInt32(sequence)
      modifies this`sent
      ensures Replies(sent) == Replies(old(sent)) + [Bare(fd, ResponseTo(command), status, sequence)]
      ensures sent == old(sent) + [PacketOf(Bare(fd, ResponseTo(command), status, sequence))]
    {
      var header := Header(HEADER_SIZE, ResponseTo(command), status, sequence);
      assert header + [] == header;
      SendCommand(fd, command, status, sequence, true);
    }

    method RespondWith(fd: int, command: int, sequence: int, data: Bytes)
      requires 0 <= command < 0x100 && IsInt32(sequence) && |CString(data)| < MAX_DATA_LEN
      modifies this`sent
      ensures Replies(sent) == Replies(old(sent)) + [WithText(fd, ResponseTo(command), sequence, CString(data))]
      ensures sent == old(sent) + [PacketOf(WithText(fd, ResponseTo(command), sequence, CString(data)))]
    {
      ResponseSetsTheBit(command);
      CmpResponse(fd, command - 0x8000_0000, sequence, data);
    }

    // Every handler adds one response of its own to what was sent.
    ghost predicate Answers(was: seq<Sent>, fd: int, command: int, sequence: int, fields: Fields, before: Rows,
                            world: World)
      reads this
    {
      Replies(sent) == Replies(was) + [Response(fd, command, sequence, fields, before, world)]
    }

    // Nothing else was written but what goes on to a controller.
    ghost predicate Wrote(was: seq<Sent>, fd: int, command: int, sequence: int, fields: Fields, before: Rows,
                          world: World, n: int)
      reads this
    {
      sent == was + Written(fd, command, sequence, fields, before, world, n)
    }

    method CmpUnknow(fd: int, command: int, sequence: int, ghost fields: Fields, ghost world: World)
      requires IsInt32(command) && !IsKnown(command) && IsInt32(sequence)
      modifies this`sent
      ensures Answers(old(sent), fd, command, sequence, fields, rows, world)
      ensures Wrote(old(sent), fd, command, sequence, fields, rows, world, old(msnSequence))
    {
      hide Replies, ResponseTo, Bare, WithText, PortStates;
      Respond(fd, command, STATUS_RINVCMDID, sequence);
    }

    method CmpBind(fd: int, command: int, sequence: int, fields: Fields, ghost world: World)
      requires command == BIND_REQUEST && IsInt32(sequence) && Valid() && (fields == map[] || "id" in fields)
      modifies this`sent, this`rows, this`history
      ensures Valid() && Answers(old(sent), fd, command, sequence, fields, old(rows), world)
      ensures Wrote(old(sent), fd, command, sequence, fields, old(rows), world, old(msnSequence))
      ensures history == old(history) + (if "id" in fields then [Event.Bind(fields["id"], fd)] else [])
    {
      hide Replies, ResponseTo, Bare, WithText, PortStates, After, PacketOf, PortPacket, PassedOn, WithoutId;
      if 0 < |fields| {
        var id := fields["id"];
        rows := WithoutId(rows, id);
        rows := rows + [Row(id, 1, fd)];
        AfterMore(history, Event.Bind(id, fd));
        history := history + [Event.Bind(id, fd)];
        Respond(fd, command, STATUS_ROK, sequence);
        return;
      }
      Respond(fd, command, STATUS_RINVCTRLID, sequence);
    }

    method CmpUnbind(fd: int, command: int, sequence: int, ghost fields: Fields, ghost world: World)
      requires command == UNBIND_REQUEST && IsInt32(sequence)
      modifies this`sent
      ensures Answers(old(sent), fd, command, sequence, fields, rows, world)
      ensures Wrote(old(sent), fd, command, sequence, fields, rows, world, old(msnSequence))
    {
      hide Replies, ResponseTo, Bare, WithText, PortStates;
      Respond(fd, command, STATUS_ROK, sequence);
    }

    method GetControllerSocketFD(id: Text) returns (fd: int)
      requires Valid()
      ensures fd == Lookup(rows, id)
      ensures forall f | IsBound(history, id, f) :: fd == f
      ensures (forall f :: !IsBound(history, id, f)) ==> fd == -1
    {
      forall f | IsBound(history, id, f) ensures Lookup(rows, id) == f {
        LookupIsLatestBind(history, id, f);
      }
      LookupIsLatestBind(history, id, 0);
      fd := -1;
      var listValue := FdsOf(rows, id);
      if 0 < |listValue| {
        fd := listValue[0];
      }
    }

    // A request of the center's own, with a body.
    method SendRequest(fd: int, command: int, data: Bytes, sendResult: int) returns (nRet: int)
      requires 0 <= command < 0x100 && |data| <= MAX_DATA_LEN && 0 <= msnSequence < 0x7FFF_FFFF
      modifies this`sent, this`msnSequence
      ensures msnSequence == NextSequence(old(msnSequence)) && 0 <= msnSequence < 0x7FFF_FFFF && nRet == sendResult
      ensures sent == old(sent)
        + [Sent(fd, Header(HEADER_SIZE + |data|, command, STATUS_ROK, msnSequence) + data)]
      ensures Replies(sent) == Replies(old(sent))
    {
      hide Header, Replies, ReplyIn, After, Zeros;
      var sequence := NewSequence();
      var packet := NewPacket();
      var index := Append(packet, HEADER_SIZE, data, Zeros(HEADER_SIZE));
      SetHeader(packet, index, command, STATUS_ROK, sequence, Zeros(HEADER_SIZE) + data);
      assert (Zeros(HEADER_SIZE) + data)[HEADER_SIZE..] == data;
      ReplyInHeader(fd, index, command, STATUS_ROK, sequence, data);
      RepliesOfMore(sent, Sent(fd, Header(index, command, STATUS_ROK, sequence) + data));
      sent := sent + [Sent(fd, packet[..index])];
      nRet := sendResult;
    }

    // The setting goes on to the controller bound to the name in it, if there is one.
    method ForwardSetting(fields: Fields, world: World)
      requires "wire" in fields && "port" in fields && "state" in fields && "controller" in fields && Valid()
      modifies this`sent, this`msnSequence
      ensures Valid() && Replies(sent) == Replies(old(sent))
      ensures forall f | f > 0 && IsBound(history, fields["controller"], f) ::
                sent == old(sent) + [Sent(f, PortPacket(fields, msnSequence))]
      ensures (forall f :: !IsBound(history, fields["controller"], f)) ==> sent == old(sent)
      ensures sent == old(sent)
        + PassedOn(rows, fields["controller"], PortPacket(fields, NextSequence(old(msnSequence))))
      ensures Counts(old(msnSequence), msnSequence)
    {
      hide Replies, After, Header, PortSetting, IsBound, Lookup;
      var nFD := GetControllerSocketFD(fields["controller"]);
      if 0 < nFD {
        var n := SendRequest(nFD, POWER_PORT_SET_REQUEST, PortSetting(fields), world.sendResult);
      }
    }

    method CmpPowerPort(fd: int, command: int, sequence: int, fields: Fields, world: World)
      requires command == POWER_PORT_SET_REQUEST && IsInt32(sequence) && Valid()
      modifies this`sent, this`msnSequence
      ensures Counts(old(msnSequence), msnSequence)
      ensures Valid() && Answers(old(sent), fd, command, sequence, fields, rows, world)
      ensures Wrote(old(sent), fd, command, sequence, fields, rows, world, old(msnSequence))
    {
      hide Replies, ResponseTo, Bare, WithText, PortStates, PacketOf, PortPacket, PassedOn, After, IsBound, ReplyId;
      ReplyIdOf(command, fields);
      if 0 < |fields| && "wire" in fields && "port" in fields && "state" in fields && "controller" in fields {
        Respond(fd, command, STATUS_ROK, sequence);
        ForwardSetting(fields, world);
      } else {
        Respond(fd, command, STATUS_RINVBODY, sequence);
      }
    }

    method CmpPowerPortState(fd: int, command: int, sequence: int, fields: Fields, world: World)
      requires command == POWER_PORT_STATE_REQUEST && IsInt32(sequence) && Valid()
      modifies this`sent, this`msnSequence
      ensures Counts(old(msnSequence), msnSequence)
      ensures Valid() && Answers(old(sent), fd, command, sequence, fields, rows, world)
      ensures Wrote(old(sent), fd, command, sequence, fields, rows, world, old(msnSequence))
    {
      hide Replies, ResponseTo, Bare, WithText, PortStates, After, CString, PortQuestion, IsBound, ReplyId, PacketOf;
      hide Lookup, NextSequence;
      ReplyIdOf(command, fields);
      if 0 < |fields| && "wire" in fields && "controller" in fields {
        var nFD := GetControllerSocketFD(fields["controller"]);
        if 0 < nFD {
          AskPortState(fd, nFD, command, sequence, fields["wire"], world);
        } else {
          Respond(fd, command, STATUS_RSYSERR, sequence);
        }
      } else {
        Respond(fd, command, STATUS_RINVBODY, sequence);
      }
    }

    // The question goes to the controller, and the requester is answered by whether it could be sent.
    method AskPortState(fd: int, nFD: int, command: int, sequence: int, wire: Bytes, world: World)
      requires command == POWER_PORT_STATE_REQUEST && IsInt32(sequence) && Valid()
      modifies this`sent, this`msnSequence
      ensures Counts(old(msnSequence), msnSequence)
      ensures Valid()
      ensures Replies(sent) == Replies(old(sent))
        + [if world.sendResult <= 0 then Bare(fd, ResponseTo(command), STATUS_RPPSTAFAIL, sequence)
           else WithText(fd, ResponseTo(command), sequence, CString(PortStates()))]
      ensures sent == old(sent) + [Sent(nFD, PortQuestion(wire, NextSequence(old(msnSequence))))]
        + [PacketOf(if world.sendResult <= 0 then Bare(fd, ResponseTo(command), STATUS_RPPSTAFAIL, sequence)
                    else WithText(fd, ResponseTo(command), sequence, CString(PortStates())))]
    {
      hide Replies, ResponseTo, Bare, WithText, PortStates, FirstByte, After, Header, CString;
      var n := SendRequest(nFD, POWER_PORT_STATE_REQUEST, FirstByte(wire), world.sendResult);
      if 0 < n {
        RespondWith(fd, command, sequence, PortStates());
      } else {
        Respond(fd, command, STATUS_RPPSTAFAIL, sequence);
      }
    }

    method CmpAccessLog(fd: int, command: int, sequence: int, fields: Fields, world: World)
      requires command == ACCESS_LOG_REQUEST && IsInt32(sequence)
      modifies this`sent
      ensures Answers(old(sent), fd, command, sequence, fields, rows, world)
      ensures Wrote(old(sent), fd, command, sequence, fields, rows, world, old(msnSequence))
    {
      hide Replies, ResponseTo, Bare, WithText, PortStates;
      if 0 < |fields| && "type" in fields && "data" in fields {
        if world.oid == [] {
          Respond(fd, command, STATUS_RINVBODY, sequence);
        } else {
          Respond(fd, command, STATUS_ROK, sequence);
        }
      } else {
        Respond(fd, command, STATUS_RINVBODY, sequence);
      }
    }

    method CmpInitial(fd: int, command: int, sequence: int, fields: Fields, world: World)
      requires command == INITIAL_REQUEST && IsInt32(sequence) && Fits(world)
      modifies this`sent
      ensures Answers(old(sent), fd, command, sequence, fields, rows, world)
      ensures Wrote(old(sent), fd, command, sequence, fields, rows, world, old(msnSequence))
    {
      hide Replies, ResponseTo, Bare, WithText, PortStates;
      if 0 < |fields| && "type" in fields {
        if world.initData == [] {
          Respond(fd, command, STATUS_RSYSERR, sequence);
        } else {
          RespondWith(fd, command, sequence, world.initData);
        }
      } else {
        Respond(fd, command, STATUS_RINVBODY, sequence);
      }
    }

    method CmpSdkTracker(fd: int, command: int, sequence: int, fields: Fields, world: World)
      requires command == SDK_TRACKER_REQUEST && IsInt32(sequence)
      modifies this`sent
      ensures Answers(old(sent), fd, command, sequence, fields, rows, world)
      ensures Wrote(old(sent), fd, command, sequence, fields, rows, world, old(msnSequence))
    {
      hide Replies, ResponseTo, Bare, WithText, PortStates;
      if 0 < |fields| && "data" in fields {
        Respond(fd, command, STATUS_ROK, sequence);
      } else {
        Respond(fd, command, STATUS_RINVBODY, sequence);
      }
    }

    method CmpSignup(fd: int, command: int, sequence: int, fields: Fields, world: World)
      requires command == SIGN_UP_REQUEST && IsInt32(sequence)
      modifies this`sent
      ensures Answers(old(sent), fd, command, sequence, fields, rows, world)
      ensures Wrote(old(sent), fd, command, sequence, fields, rows, world, old(msnSequence))
    {
      hide Replies, ResponseTo, Bare, WithText, PortStates;
      if 0 < |fields| && "type" in fields && "data" in fields {
        Respond(fd, command, if world.signedUp then STATUS_ROK else STATUS_RSYSERR, sequence);
      } else {
        Respond(fd, command, STATUS_RINVBODY, sequence);
      }
    }

    method CmpMdmLogin(fd: int, command: int, sequence: int, fields: Fields, world: World)
      requires command == MDM_LOGIN_REQUEST && IsInt32(sequence) && Fits(world)
      modifies this`sent
      ensures Answers(old(sent), fd, command, sequence, fields, rows, world)
      ensures Wrote(old(sent), fd, command, sequence, fields, rows, world, old(msnSequence))
    {
      hide Replies, ResponseTo, Bare, WithText, PortStates;
      if 0 < |fields| && "account" in fields && "password" in fields {
        if world.token == [] {
          Respond(fd, command, STATUS_RMDMLOGINFAIL, sequence);
          return;
        }
        RespondWith(fd, command, sequence, world.token);
      } else {
        Respond(fd, command, STATUS_RINVBODY, sequence);
      }
    }

    method CmpMdmOperate(fd: int, command: int, sequence: int, fields: Fields, ghost world: World)
      requires command == MDM_OPERATE_REQUEST && IsInt32(sequence)
      modifies this`sent
      ensures Answers(old(sent), fd, command, sequence, fields, rows, world)
      ensures Wrote(old(sent), fd, command, sequence, fields, rows, world, old(msnSequence))
    {
      hide Replies, ResponseTo, Bare, WithText, PortStates;
      if 0 < |fields| && "token" in fields {
        RespondWith(fd, MDM_LOGIN_REQUEST, sequence, OPERATE_TEXT);
      } else {
        Respond(fd, command, STATUS_RINVBODY, sequence);
      }
    }

    // ackPacket: an enquire-link response takes the first entry of its socket off the list.
    method AckPacket(fd: int, command: int)
      modifies this`vEnquireLink
      ensures vEnquireLink == if command == ENQUIRE_LINK_RESPONSE then WithoutFirst(old(vEnquireLink), fd)
                              else old(vEnquireLink)
    {
      if command != ENQUIRE_LINK_RESPONSE {
        return;
      }
      vEnquireLink := RemoveFirst(vEnquireLink, fd);
    }

    // The handlers of the requests that have a body.
    method Handle(fd: int, command: int, sequence: int, fields: Fields, world: World)
      requires IsKnown(command) && command != UNBIND_REQUEST && IsInt32(sequence) && Valid() && Fits(world)
      requires command == BIND_REQUEST ==> fields == map[] || "id" in fields
      modifies this`sent, this`rows, this`history, this`msnSequence
      ensures Valid() && Answers(old(sent), fd, command, sequence, fields, old(rows), world)
      ensures Wrote(old(sent), fd, command, sequence, fields, old(rows), world, old(msnSequence))
      ensures history == old(history)
        + (if command == BIND_REQUEST && "id" in fields then [Event.Bind(fields["id"], fd)] else [])
      ensures Counts(old(msnSequence), msnSequence)
    {
      hide Written, Response, Replies, After;
      if command == BIND_REQUEST {
        CmpBind(fd, command, sequence, fields, world);
      } else if command == POWER_PORT_SET_REQUEST {
        CmpPowerPort(fd, command, sequence, fields, world);
      } else if command == POWER_PORT_STATE_REQUEST {
        CmpPowerPortState(fd, command, sequence, fields, world);
      } else if command == ACCESS_LOG_REQUEST {
        CmpAccessLog(fd, command, sequence, fields, world);
      } else if command == INITIAL_REQUEST {
        CmpInitial(fd, command, sequence, fields, world);
      } else if command == SIGN_UP_REQUEST {
        CmpSignup(fd, command, sequence, fields, world);
      } else if command == MDM_LOGIN_REQUEST {
        CmpMdmLogin(fd, command, sequence, fields, world);
      } else if command == MDM_OPERATE_REQUEST {
        CmpMdmOperate(fd, command, sequence, fields, world);
      } else {
        CmpSdkTracker(fd, command, sequence, fields, world);
      }
    }

    // The request branch of onCMP: through the table of handlers, or refused.
    method OnRequest(fd: int, p: Bytes, world: World)
      requires |p| >= HEADER_SIZE && GetCommand(p) >= 0 && Valid() && Fits(world)
      modifies this`sent, this`rows, this`history, this`msnSequence
      ensures Valid() && Answers(old(sent), fd, GetCommand(p), GetSequence(p), FieldsIn(p), old(rows), world)
      ensures Wrote(old(sent), fd, GetCommand(p), GetSequence(p), FieldsIn(p), old(rows), world, old(msnSequence))
      ensures history == old(history) + BindIn(fd, p)
      ensures Counts(old(msnSequence), msnSequence)
    {
      var command, sequence := GetCommand(p), GetSequence(p);
      if 0xFF < command || !IsKnown(command) {
        CmpUnknow(fd, command, sequence, FieldsIn(p), world);
      } else if command == UNBIND_REQUEST {
        CmpUnbind(fd, command, sequence, FieldsIn(p), world);
      } else {
        var rData, nRet := Parse(p);
        if command == BIND_REQUEST {
          BindFields(p);
        }
        Handle(fd, command, sequence, rData.mapData, world);
      }
    }

    method OnAck(fd: int, p: Bytes)
      requires |p| >= HEADER_SIZE && IsAckPacket(GetCommand(p)) && Conserved()
      modifies this`vEnquireLink, this`arrivals
      ensures Conserved() && arrivals == old(arrivals) + [Arrival(fd, p)]
      ensures vEnquireLink == if GetCommand(p) == ENQUIRE_LINK_RESPONSE then WithoutFirst(old(vEnquireLink), fd)
                              else old(vEnquireLink)
    {
      hide Replies, DueAfter, Given, FieldsIn, GetCommand, GetSequence, IsAckPacket, ReplyId;
      ConservedStep(Replies(sent), arrivals, Arrival(fd, p),
                    Bare(fd, ReplyId(GetCommand(p), FieldsIn(p)), STATUS_ROK, GetSequence(p)));
      arrivals := arrivals + [Arrival(fd, p)];
      AckPacket(fd, GetCommand(p));
    }

    method OnNonAck(fd: int, p: Bytes, world: World)
      requires |p| >= HEADER_SIZE && !IsAckPacket(GetCommand(p)) && Valid() && Conserved() && Fits(world)
      modifies this`sent, this`rows, this`history, this`msnSequence, this`arrivals
      ensures Valid() && Conserved() && arrivals == old(arrivals) + [Arrival(fd, p)]
      ensures Answers(old(sent), fd, GetCommand(p), GetSequence(p), FieldsIn(p), old(rows), world)
      ensures Wrote(old(sent), fd, GetCommand(p), GetSequence(p), FieldsIn(p), old(rows), world, old(msnSequence))
      ensures history == old(history) + BindIn(fd, p)
      ensures Counts(old(msnSequence), msnSequence)
    {
      AckIsNegative(GetCommand(p));
      ConservedStep(Replies(sent), arrivals, Arrival(fd, p),
                    Response(fd, GetCommand(p), GetSequence(p), FieldsIn(p), rows, world));
      OnRequest(fd, p, world);
      arrivals := arrivals + [Arrival(fd, p)];
    }

    // onCMP
    method OnCMP(fd: int, p: Bytes, world: World)
      requires |p| >= HEADER_SIZE && Valid() && Conserved() && Fits(world)
      modifies this`sent, this`rows, this`history, this`msnSequence, this`vEnquireLink, this`arrivals
      ensures Valid() && Conserved() && arrivals == old(arrivals) + [Arrival(fd, p)]
      ensures Counts(old(msnSequence), msnSequence)
      ensures IsAckPacket(GetCommand(p)) ==>
                && sent == old(sent) && history == old(history) && msnSequence == old(msnSequence)
                && vEnquireLink == (if GetCommand(p) == ENQUIRE_LINK_RESPONSE then WithoutFirst(old(vEnquireLink), fd)
                                    else old(vEnquireLink))
      ensures !IsAckPacket(GetCommand(p)) ==>
                && Answers(old(sent), fd, GetCommand(p), GetSequence(p), FieldsIn(p), old(rows), world)
                && Wrote(old(sent), fd, GetCommand(p), GetSequence(p), FieldsIn(p), old(rows), world,
                         old(msnSequence))
                && vEnquireLink == old(vEnquireLink) && history == old(history) + BindIn(fd, p)
    {
      hide After, Replies, Given, DueAfter, FieldsIn, GetCommand, IsAckPacket, Response, BindIn;
      if IsAckPacket(GetCommand(p)) {
        OnAck(fd, p);
      } else {
        OnNonAck(fd, p, world);
      }
    }

    // Sockets still on the list lose their rows and are closed.
    method DropSilent()
      requires Valid()
      modifies this`rows, this`closed, this`history, this`vEnquireLink
      ensures Valid() && vEnquireLink == []
      ensures rows == WithoutFds(old(rows), old(vEnquireLink)) && closed == old(closed) + old(vEnquireLink)
      ensures history == old(history) + Drops(old(vEnquireLink))
    {
      var it := 0;
      assert vEnquireLink[0..] == vEnquireLink;
      while it < |vEnquireLink|
        invariant 0 <= it <= |vEnquireLink| && Valid() && vEnquireLink == old(vEnquireLink)
        invariant WithoutFds(rows, vEnquireLink[it..]) == WithoutFds(old(rows), vEnquireLink)
        invariant closed == old(closed) + vEnquireLink[..it]
        invariant history + Drops(vEnquireLink[it..]) == old(history) + Drops(vEnquireLink)
      {
        var fd := vEnquireLink[it];
        assert vEnquireLink[it..][1..] == vEnquireLink[it + 1..];
        assert history + Drops(vEnquireLink[it..]) == history + [Drop(fd)] + Drops(vEnquireLink[it + 1..]);
        assert vEnquireLink[..it + 1] == vEnquireLink[..it] + [fd];
        AfterMore(history, Drop(fd));
        rows := WithoutFd(rows, fd);
        closed := closed + [fd];
        history := history + [Drop(fd)];
        it := it + 1;
      }
      vEnquireLink := [];
    }

    method CmpEnquireLinkRequest(fd: int)
      requires 0 <= msnSequence < 0x7FFF_FFFF
      modifies this`sent, this`msnSequence
      ensures msnSequence == NextSequence(old(msnSequence)) && 0 <= msnSequence < 0x7FFF_FFFF
      ensures sent == old(sent) + [EnquiryPacket(Enquiry(fd, msnSequence))] && Replies(sent) == Replies(old(sent))
    {
      var n := NewSequence();
      SendCommand(fd, ENQUIRE_LINK_REQUEST, STATUS_ROK, n, false);
    }

    // Every bound socket goes on the list and is asked.
    method AskBound()
      requires Valid() && vEnquireLink == []
      modifies this`sent, this`msnSequence, this`vEnquireLink
      ensures Valid() && vEnquireLink == BoundFds(rows) && Replies(sent) == Replies(old(sent))
      ensures msnSequence == LastSequence(BoundFds(rows), old(msnSequence))
      ensures sent == old(sent) + EnquiryPackets(Enquiries(BoundFds(rows), old(msnSequence)))
    {
      hide BoundFds, Replies, Header, After, Enquiries, LastSequence, EnquiryPackets;
      var listValue := BoundFds(rows);
      ghost var all := sent + EnquiryPackets(Enquiries(listValue, msnSequence));
      var i := 0;
      assert listValue[0..] == listValue;
      while i < |listValue|
        invariant 0 <= i <= |listValue| && vEnquireLink == listValue[..i] && Valid()
        invariant Replies(sent) == Replies(old(sent))
        invariant sent + EnquiryPackets(Enquiries(listValue[i..], msnSequence)) == all
        invariant LastSequence(listValue[i..], msnSequence) == LastSequence(listValue, old(msnSequence))
      {
        ghost var next := NextSequence(msnSequence);
        AskedNext(listValue, i, msnSequence, sent);
        assert listValue[..i + 1] == listValue[..i] + [listValue[i]];
        vEnquireLink := vEnquireLink + [listValue[i]];
        CmpEnquireLinkRequest(listValue[i]);
        i := i + 1;
      }
      NothingToAsk(listValue, msnSequence, sent);
    }

    // One round of runEnquireLinkRequest.
    method EnquireRound()
      requires Valid() && Conserved()
      modifies this`rows, this`closed, this`history, this`vEnquireLink, this`sent, this`msnSequence
      ensures Valid() && Conserved()
      ensures rows == WithoutFds(old(rows), old(vEnquireLink)) && vEnquireLink == BoundFds(rows)
      ensures closed == old(closed) + old(vEnquireLink) && history == old(history) + Drops(old(vEnquireLink))
      ensures msnSequence == LastSequence(vEnquireLink, old(msnSequence))
      ensures sent == old(sent) + EnquiryPackets(Enquiries(vEnquireLink, old(msnSequence)))
    {
      hide After, Replies, Given, DueAfter, WithoutFds, BoundFds, EnquiryPackets, Enquiries, LastSequence, Drops;
      DropSilent();
      AskBound();
    }
  }

  function Drops(fds: seq<int>): seq<Event> {
    if fds == [] then [] else [Drop(fds[0])] + Drops(fds[1..])
  }

  function EnquiryPacket(e: Enquiry): Sent {
    Sent(e.fd, Header(HEADER_SIZE, ENQUIRE_LINK_REQUEST, STATUS_ROK, e.sequence))
  }

  function EnquiryPackets(es: seq<Enquiry>): seq<Sent> {
    if es == [] then [] else [EnquiryPacket(es[0])] + EnquiryPackets(es[1..])
  }

  lemma NothingToAsk(fds: seq<int>, n: int, sent: seq<Sent>)
    ensures LastSequence(fds[|fds|..], n) == n && sent + EnquiryPackets(Enquiries(fds[|fds|..], n)) == sent
  {
    assert fds[|fds|..] == [];
    assert sent + [] == sent;
  }

  lemma AskedNext(fds: seq<int>, i: nat, n: int, sent: seq<Sent>)
    requires i < |fds|
    ensures var next := NextSequence(n);
            && LastSequence(fds[i..], n) == LastSequence(fds[i + 1..], next)
            && sent + EnquiryPackets(Enquiries(fds[i..], n))
               == sent + [EnquiryPacket(Enquiry(fds[i], next))] + EnquiryPackets(Enquiries(fds[i + 1..], next))
  {
    var next := NextSequence(n);
    assert fds[i..][1..] == fds[i + 1..];
    var e := Enquiry(fds[i], next);
    assert Enquiries(fds[i..], n) == [e] + Enquiries(fds[i + 1..], next);
    Assoc(sent, [EnquiryPacket(e)], EnquiryPackets(Enquiries(fds[i + 1..], next)));
  }
}
