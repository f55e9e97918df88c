/** The center and an AW-2401 controller together: the enquiry that is answered, and the requests that are misread. */
module CmpTwoParties {
  import opened CText
  import opened JsonTree
  import opened CmpPacket
  import opened CmpCodec
  import opened CmpClientHandler
  import opened CmpRegistry
  import opened CmpKeepAlive
  import opened CmpControlCenter
  import opened CmpController

  // The packet e of the center arrives at the controller, whose answer arrives at the center on socket e.fd.
  method EnquiryAnswered(c: ControlCenter, k: Controller, e: Enquiry, world: World, device: Device)
    requires c.Valid() && c.Conserved() && Fits(world) && IsInt32(e.sequence)
    requires k.Valid() && k.Conserved() && Reports(device) && k.center.connected
    modifies c, k
    ensures c.Valid() && c.Conserved() && k.Valid() && k.Conserved() && k.center == old(k.center)
    ensures c.vEnquireLink == WithoutFirst(old(c.vEnquireLink), e.fd)
    ensures c.sent == old(c.sent) && c.history == old(c.history) && c.msnSequence == old(c.msnSequence)
    ensures c.rows == old(c.rows) && c.closed == old(c.closed)
    ensures k.sent == old(k.sent) + EnquiryAnswer(k.center, e.sequence)
    ensures Replies(k.sent)
         == Replies(old(k.sent)) + [Bare(k.center.fd, ENQUIRE_LINK_RESPONSE, STATUS_ROK, e.sequence)]
  {
    hide Replies, Header, Given, DueAfter, GivenAfter, After, ClientFieldsIn, FieldsIn, Fits, Reports;
    var p := EnquiryPacket(e).packet;
    BareHeader(ENQUIRE_LINK_REQUEST, e.sequence);
    AckIsNegative(ENQUIRE_LINK_REQUEST);
    ResponseSetsTheBit(ENQUIRE_LINK_REQUEST);
    k.OnCMP(k.center.fd, p, device);
    var answer := k.sent[|k.sent| - 1].packet;
    BareHeader(ENQUIRE_LINK_RESPONSE, e.sequence);
    AckIsNegative(ENQUIRE_LINK_RESPONSE);
    c.OnCMP(e.fd, answer, world);
  }

  lemma BareHeader(command: int, sequence: int)
    requires IsInt32(command) && IsInt32(sequence)
    ensures var p := Header(HEADER_SIZE, command, STATUS_ROK, sequence);
            GetCommand(p) == command && GetSequence(p) == sequence && GetStatus(p) == STATUS_ROK
  {
    var p := Header(HEADER_SIZE, command, STATUS_ROK, sequence);
    assert p + [] == p;
    HeaderRoundTrip(HEADER_SIZE, command, STATUS_ROK, sequence, []);
  }

  lemma {:induction false} SequencesFit(fds: seq<int>, n: int, i: nat)
    requires 0 <= n < 0x7FFF_FFFF && i < |fds|
    ensures |Enquiries(fds, n)| == |fds| && Enquiries(fds, n)[i].fd == fds[i]
    ensures 0 < Enquiries(fds, n)[i].sequence < 0x7FFF_FFFF
  {
    if i > 0 {
      SequencesFit(fds[1..], NextSequence(n), i - 1);
    } else if |fds| > 1 {
      SequencesFit(fds[1..], NextSequence(n), 0);
    }
  }

  // A round, and then the answers of the controller on socket fd to all that it is asked: the socket is off the list,
  // with its rows in place.
  method AnsweredRound(c: ControlCenter, k: Controller, fd: int, world: World, device: Device)
    requires c.Valid() && c.Conserved() && Fits(world) && fd !in c.vEnquireLink
    requires k.Valid() && k.Conserved() && Reports(device) && k.center.connected
    modifies c, k
    ensures c.Valid() && c.Conserved() && k.Valid() && k.Conserved() && fd !in c.vEnquireLink
    ensures forall id :: Row(id, 1, fd) in c.rows <==> Row(id, 1, fd) in old(c.rows)
    ensures c.closed == old(c.closed) + old(c.vEnquireLink)
  {
    hide Given, DueAfter, Replies, After, GivenAfter, Fits, Reports, EnquiryPackets, Bare, LastSequence;
    var n := c.msnSequence;
    c.EnquireRound();
    forall id ensures Row(id, 1, fd) in c.rows <==> Row(id, 1, fd) in old(c.rows) {
      InWithoutFds(old(c.rows), old(c.vEnquireLink), Row(id, 1, fd));
    }
    AnswerAll(c, k, c.vEnquireLink, n, fd, world, device);
    CountIn(c.vEnquireLink, fd);
  }

  // The controller on socket fd answers each enquiry of the round that went to it.
  method AnswerAll(c: ControlCenter, k: Controller, asked: seq<int>, n: int, fd: int, world: World, device: Device)
    requires c.Valid() && c.Conserved() && Fits(world) && c.vEnquireLink == asked && 0 <= n < 0x7FFF_FFFF
    requires k.Valid() && k.Conserved() && Reports(device) && k.center.connected
    modifies c, k
    ensures c.Valid() && c.Conserved() && k.Valid() && k.Conserved() && Count(c.vEnquireLink, fd) == 0
    ensures c.rows == old(c.rows) && c.closed == old(c.closed)
  {
    hide Given, DueAfter, Replies, After, GivenAfter, Fits, Reports, EnquiryPackets, Bare, Count, WithoutFirst;
    hide Enquiries;
    ghost var rows, closed := c.rows, c.closed;
    var i := 0;
    assert asked[0..] == asked;
    while i < |asked|
      invariant 0 <= i <= |asked| && c.Valid() && c.Conserved() && k.Valid() && k.Conserved() && k.center.connected
      invariant c.rows == rows && c.closed == closed
      invariant Count(c.vEnquireLink, fd) == Count(asked[i..], fd)
    {
      OneLess(c.vEnquireLink, asked, i, fd);
      SequencesFit(asked, n, i);
      if asked[i] == fd {
        EnquiryAnswered(c, k, Enquiries(asked, n)[i], world, device);
      }
      i := i + 1;
    }
    NoneLeft(asked, fd);
  }

  lemma OneLess(fds: seq<int>, asked: seq<int>, i: nat, fd: int)
    requires i < |asked| && Count(fds, fd) == Count(asked[i..], fd)
    ensures Count(if asked[i] == fd then WithoutFirst(fds, fd) else fds, fd) == Count(asked[i + 1..], fd)
  {
    assert asked[i..][1..] == asked[i + 1..];
    CountWithoutFirst(fds, fd, fd);
    CountIn(fds, fd);
  }

  lemma NoneLeft(asked: seq<int>, fd: int)
    ensures Count(asked[|asked|..], fd) == 0
  {}

  lemma FieldsBehind(length: int, command: int, sequence: int, body: Bytes)
    requires IsInt32(length) && IsInt32(command) && IsInt32(sequence) && HEADER_SIZE < length
    ensures var p := Header(length, command, STATUS_ROK, sequence) + body;
            && GetCommand(p) == command && GetSequence(p) == sequence
            && ClientFieldsIn(p) == ClientFields(command, body) && FieldsIn(p) == BodyFields(command, body)
  {
    var p := Header(length, command, STATUS_ROK, sequence) + body;
    HeaderRoundTrip(length, command, STATUS_ROK, sequence, body);
    assert p[HEADER_SIZE..] == body;
  }

  // The center passes a power setting on as three characters, where the controller reads two integers first: it finds
  // no state behind them, so no setting that comes through the center is carried out or answered.
  lemma ForwardedSettingIsLost(fields: Fields, sequence: int, fd: int, center: Center)
    requires "wire" in fields && "port" in fields && "state" in fields && IsInt32(sequence)
    ensures var p := PortPacket(fields, sequence);
            IsRequest(Turn(fd, p, center)) && !IsSetting(ClientFieldsIn(p)) && GivenFor(Turn(fd, p, center)) == []
  {
    var s := PortSetting(fields);
    FieldsBehind(HEADER_SIZE + 3, POWER_PORT_SET_REQUEST, sequence, s);
    AckIsNegative(POWER_PORT_SET_REQUEST);
    NoState(s);
  }

  lemma NoState(s: Bytes)
    requires |s| < 8
    ensures "state" !in ClientFields(POWER_PORT_SET_REQUEST, s)
  {
    assert From(s, 8) == [] && From(s, 9) == [];
    assert CharField("state", []) == map[] && StringField("controller", []) == map[];
  }

  // It asks for port states with one character, where the controller reads an integer: that is no wire of the
  // device, so the answer is always that of a failure.
  lemma PortQuestionFails(wire: Bytes, sequence: int, fd: int, device: Device, center: Center)
    requires IsInt32(sequence)
    ensures var p := PortQuestion(wire, sequence);
            Responses(fd, GetCommand(p), GetSequence(p), ClientFieldsIn(p), device, center)
            == [Bare(fd, ResponseTo(POWER_PORT_STATE_REQUEST), STATUS_RPPSTAFAIL, sequence)]
  {
    var s := FirstByte(wire);
    FieldsBehind(HEADER_SIZE + 1, POWER_PORT_STATE_REQUEST, sequence, s);
    NoWire(s[0]);
    assert s == [s[0]];
    DecimalReadBack(IntField(s));
  }

  lemma NoWire(c: Byte)
    ensures IntField([c]) != 1 && IntField([c]) != 2
  {
    var t: Bytes := [c] + ['\0', '\0', '\0', '\0'];
    assert t[0] == c && t[1] == '\0' && t[2] == '\0' && t[3] == '\0';
  }

  // The controller passes a log on with a type of one character, where the center reads an integer: the first three
  // characters of the log are taken for the type, and what is left, if anything, for the log.
  lemma PassedOnLogIsCut(kind: Byte, log: Bytes, sequence: int)
    requires kind != '\0' && NulFree(log) && 0 < |log| < MAX_SIZE && IsInt32(sequence)
    ensures var fields := FieldsIn(LogPacket([kind], log, sequence));
            ("data" in fields <==> |log| > 3) && ("data" in fields ==> fields["data"] == log[3..])
  {
    var body: Bytes := [kind] + (log + NUL);
    FieldsBehind(HEADER_SIZE + 1 + |log| + 1, ACCESS_LOG_REQUEST, sequence, body);
    if |log| >= 3 {
      assert From(body, 4) == log[3..] + NUL;
      StringFieldOf("data", log[3..], []);
      assert log[3..] + NUL + [] == log[3..] + NUL;
    } else {
      assert From(body, 4) == [];
    }
  }
}
