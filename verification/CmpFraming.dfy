/** Cutting a byte stream into packets: the receive loops of the server and of the client. */
module CmpFraming {
  import opened CText
  import opened JsonTree
  import opened CmpPacket
  import opened CmpEncoder

  predicate IsEnquiry(p: Bytes)
    requires |p| >= HEADER_SIZE
  {
    GetCommand(p) == ENQUIRE_LINK_REQUEST
  }

  predicate WellFormed(p: Bytes) {
    && HEADER_SIZE <= |p| <= HEADER_SIZE + MAX_DATA_LEN
    && GetLength(p) == |p|
    && (IsEnquiry(p) ==> |p| == HEADER_SIZE)
  }

  predicate AllWellFormed(ps: seq<Bytes>) {
    forall i | 0 <= i < |ps| :: WellFormed(ps[i])
  }

  function Concat(ps: seq<Bytes>): Bytes {
    if ps == [] then [] else ps[0] + Concat(ps[1..])
  }

  function EnquireResponse(sequence: int): Bytes {
    Header(HEADER_SIZE, ResponseTo(ENQUIRE_LINK_REQUEST), STATUS_ROK, sequence)
  }

  // The response an enquiry gets at once.
  function AnswerTo(p: Bytes): seq<Bytes>
    requires |p| >= HEADER_SIZE
  {
    if IsEnquiry(p) then [EnquireResponse(GetSequence(p))] else []
  }

  // The packet itself, if it is no enquiry.
  function PassedOn(p: Bytes): seq<Bytes>
    requires |p| >= HEADER_SIZE
  {
    if IsEnquiry(p) then [] else [p]
  }

  function Answers(ps: seq<Bytes>): seq<Bytes>
    requires AllWellFormed(ps)
  {
    if ps == [] then [] else AnswerTo(ps[0]) + Answers(ps[1..])
  }

  function Others(ps: seq<Bytes>): seq<Bytes>
    requires AllWellFormed(ps)
  {
    if ps == [] then [] else PassedOn(ps[0]) + Others(ps[1..])
  }

  // The enquiries among the packets, by their id.
  function EnquiriesIn(ps: seq<Bytes>): seq<Bytes>
    requires AllWellFormed(ps)
  {
    if ps == [] then []
    else (if GetCommand(ps[0]) == 0x15 then [ps[0]] else []) + EnquiriesIn(ps[1..])
  }

  // Each enquiry q has one answer, at the same place: a bare header with the id of the response, status zero and
  // the sequence number of q.
  predicate AnswersOf(answers: seq<Text>, qs: seq<Bytes>)
    requires forall i | 0 <= i < |qs| :: |qs[i]| >= HEADER_SIZE
  {
    |answers| == |qs| && forall i | 0 <= i < |qs| :: IsAnswer(answers[i], qs[i])
  }

  predicate IsAnswer(t: Text, q: Bytes)
    requires |q| >= HEADER_SIZE
  {
    |t| == 16 && (forall i | 0 <= i < 16 :: t[i] as int < 0x100) &&
    var a: Bytes := t;
    GetLength(a) == 16 && GetCommand(a) == 0x15 - 0x8000_0000 && GetStatus(a) == 0 && GetSequence(a) == GetSequence(q)
  }

  lemma {:induction false} AnswersMatch(ps: seq<Bytes>)
    requires AllWellFormed(ps)
    ensures forall q | q in EnquiriesIn(ps) :: |q| >= HEADER_SIZE
    ensures AnswersOf(Answers(ps), EnquiriesIn(ps))
  {
    hide IsAnswer, EnquireResponse;
    if ps != [] {
      AnswersMatch(ps[1..]);
      if IsEnquiry(ps[0]) {
        AnswerMatches(ps[0]);
      }
    }
  }

  lemma AnswerMatches(q: Bytes)
    requires |q| >= HEADER_SIZE
    ensures IsAnswer(EnquireResponse(GetSequence(q)), q)
  {
    var n := GetSequence(q);
    ResponseSetsTheBit(ENQUIRE_LINK_REQUEST);
    HeaderRoundTrip(HEADER_SIZE, ResponseTo(ENQUIRE_LINK_REQUEST), STATUS_ROK, n, []);
    assert EnquireResponse(n) + [] == EnquireResponse(n);
  }

  const PLEASE_USE_CMP: Text := "Control Center: Please use CMP to communicate\r\n"
  const INVALID_PACKET: Text := "Invalid Packet\r\n"

  // What each recv call may return at most; a negative entry is an error, and behind the last entry is the end.
  type Script = seq<int>

  predicate BodyIsShort(p: Bytes, script: Script)
    requires WellFormed(p)
  {
    |p| > HEADER_SIZE && (|script| < 2 || script[1] < |p| - HEADER_SIZE)
  }

  function BehindPacket(p: Bytes, script: Script): (r: Script)
    requires WellFormed(p) && script != [] && !BodyIsShort(p, script)
    ensures |r| < |script|
  {
    if |p| > HEADER_SIZE then script[2..] else script[1..]
  }

  // How many packets arrive whole.
  function Whole(ps: seq<Bytes>, script: Script): (k: nat)
    requires AllWellFormed(ps)
    ensures k <= |ps|
  {
    if ps == [] || script == [] || script[0] < HEADER_SIZE || BodyIsShort(ps[0], script) then 0
    else 1 + Whole(ps[1..], BehindPacket(ps[0], script))
  }

  // What the server writes before it closes the connection.
  function Farewell(ps: seq<Bytes>, script: Script): seq<Text>
    requires AllWellFormed(ps)
  {
    if ps == [] || script == [] || script[0] <= 0 then []
    else if script[0] < HEADER_SIZE then [PLEASE_USE_CMP]
    else if BodyIsShort(ps[0], script) then [INVALID_PACKET]
    else Farewell(ps[1..], BehindPacket(ps[0], script))
  }

  // What is left of the script when the first packet that does not arrive whole is due.
  function ReadsLeft(ps: seq<Bytes>, script: Script): Script
    requires AllWellFormed(ps)
  {
    if ps == [] || script == [] || script[0] < HEADER_SIZE || BodyIsShort(ps[0], script) then script
    else ReadsLeft(ps[1..], BehindPacket(ps[0], script))
  }

  // A part of a header, or a header without its body, gets a text of its own; an end or an error gets none.
  lemma {:induction false} FarewellRule(ps: seq<Bytes>, script: Script)
    requires AllWellFormed(ps)
    ensures var left := ReadsLeft(ps, script);
            Farewell(ps, script) == if Whole(ps, script) == |ps| || left == [] || left[0] <= 0 then []
                                    else if left[0] < 16 then ["Control Center: Please use CMP to communicate\r\n"]
                                    else ["Invalid Packet\r\n"]
  {
    if ps != [] && script != [] && script[0] >= HEADER_SIZE && !BodyIsShort(ps[0], script) {
      FarewellRule(ps[1..], BehindPacket(ps[0], script));
    }
  }

  // A connected socket: what the peer still sends, how reads are cut, and what was written and passed on.
  class Socket {
    var stream: Bytes
    var script: Script
    var open: bool
    var sent: seq<Text>
    var delivered: seq<Bytes>
    var disconnects: nat

    constructor (stream: Bytes, script: Script)
      ensures this.stream == stream && this.script == script && open
      ensures sent == [] && delivered == [] && disconnects == 0
    {
      this.stream, this.script, open := stream, script, true;
      sent, delivered, disconnects := [], [], 0;
    }

    // recv into the buffer at a place.
    method Recv(buffer: array<Byte>, at: nat, n: nat) returns (result: int)
      requires at + n <= buffer.Length
      modifies this`stream, this`script, buffer
      ensures script == (if old(script) == [] then [] else old(script)[1..])
      ensures result == (if old(script) == [] then 0 else if old(script)[0] < 0 then -1
                         else Least(old(script)[0], n, |old(stream)|))
      ensures stream == (if result > 0 then old(stream)[result..] else old(stream))
      ensures result > 0 ==> buffer[at..at + result] == old(stream)[..result]
      ensures forall i | 0 <= i < buffer.Length && !(at <= i < at + result) :: buffer[i] == old(buffer[i])
    {
      if script == [] {
        return 0;
      }
      var grant := script[0];
      script := script[1..];
      if grant < 0 {
        return -1;
      }
      result := Least(grant, n, |stream|);
      Memcpy(buffer, at, stream[..result]);
      stream := stream[result..];
    }

    method Send(data: Text)
      modifies this`sent
      ensures sent == old(sent) + [data]
    {
      sent := sent + [data];
    }

    // The disconnect message to the owner, then close.
    method Disconnect()
      modifies this`open, this`disconnects
      ensures !open && disconnects == old(disconnects) + 1
    {
      disconnects, open := disconnects + 1, false;
    }

    method Deliver(packet: Bytes)
      modifies this`delivered
      ensures delivered == old(delivered) + [packet]
    {
      delivered := delivered + [packet];
    }
  }

  function Least(a: nat, b: nat, c: nat): nat {
    if a <= b && a <= c then a else if b <= c then b else c
  }

  lemma HeaderOnly(p: Bytes)
    requires |p| >= HEADER_SIZE
    ensures var h := p[..HEADER_SIZE];
            GetLength(h) == GetLength(p) && GetCommand(h) == GetCommand(p) && GetSequence(h) == GetSequence(p)
  {
    var h := p[..HEADER_SIZE];
    assert h[..4] == p[..4] && h[4..8] == p[4..8] && h[12..16] == p[12..16];
  }

  method Memset(buffer: array<Byte>)
    modifies buffer
    ensures forall i | 0 <= i < buffer.Length :: buffer[i] == '\0'
  {
    for i := 0 to buffer.Length
      invariant forall j | 0 <= j < i :: buffer[j] == '\0'
    {
      buffer[i] := '\0';
    }
  }

  // The next packet is read whole.
  predicate Arrives(ps: seq<Bytes>, script: Script)
    requires AllWellFormed(ps)
  {
    ps != [] && script != [] && script[0] >= HEADER_SIZE && !BodyIsShort(ps[0], script)
  }

  lemma NextHeader(stream: Bytes, ps: seq<Bytes>)
    requires AllWellFormed(ps) && stream == Concat(ps) && stream != []
    ensures ps != [] && |stream| >= |ps[0]| >= HEADER_SIZE
    ensures var h := stream[..HEADER_SIZE];
            GetLength(h) == |ps[0]| && GetCommand(h) == GetCommand(ps[0]) && GetSequence(h) == GetSequence(ps[0])
  {
    assert stream[..HEADER_SIZE] == ps[0][..HEADER_SIZE];
    HeaderOnly(ps[0]);
  }

  lemma NextBody(stream: Bytes, ps: seq<Bytes>)
    requires AllWellFormed(ps) && stream == Concat(ps) && stream != []
    ensures ps != [] && |stream| >= HEADER_SIZE && stream[..HEADER_SIZE] == ps[0][..HEADER_SIZE]
    ensures stream[HEADER_SIZE..] == ps[0][HEADER_SIZE..] + Concat(ps[1..])
  {}

  // The header, of nBodyLen more bytes, is in the buffer: reads the body behind it.
  method ReadBody(s: Socket, buffer: array<Byte>, nBodyLen: nat, ghost p: Bytes, ghost rest: Bytes)
    returns (result: int)
    requires WellFormed(p) && nBodyLen == |p| - HEADER_SIZE && buffer.Length == HEADER_SIZE + MAX_DATA_LEN
    requires buffer[..HEADER_SIZE] == p[..HEADER_SIZE] && s.stream == p[HEADER_SIZE..] + rest
    modifies s`stream, s`script, buffer
    ensures 0 < nBodyLen ==> (result == nBodyLen <==> old(s.script) != [] && old(s.script)[0] >= nBodyLen)
    ensures 0 < nBodyLen && result == nBodyLen ==> s.script == old(s.script)[1..]
    ensures 0 == nBodyLen ==> result == nBodyLen && s.script == old(s.script)
    ensures result == nBodyLen ==> buffer[..|p|] == p && s.stream == rest
  {
    result := 0;
    if 0 < nBodyLen {
      result := s.Recv(buffer, HEADER_SIZE, nBodyLen);
    }
    if result == nBodyLen {
      assert buffer[..HEADER_SIZE] == old(buffer[..HEADER_SIZE]);
      assert buffer[..|p|] == buffer[..HEADER_SIZE] + buffer[HEADER_SIZE..|p|];
      assert buffer[..|p|] == p[..HEADER_SIZE] + p[HEADER_SIZE..];
    }
  }

  // One turn of runSMSHandler, with the packets ps still to come; false when it has closed the connection.
  method ServerTurn(s: Socket, buffer: array<Byte>, ghost ps: seq<Bytes>) returns (more: bool)
    requires AllWellFormed(ps) && s.stream == Concat(ps) && s.open && buffer.Length == HEADER_SIZE + MAX_DATA_LEN
    modifies s, buffer
    ensures more <==> Arrives(ps, old(s.script))
    ensures more ==> s.open && s.stream == Concat(ps[1..]) && s.script == BehindPacket(ps[0], old(s.script))
    ensures more ==> s.delivered == old(s.delivered) + PassedOn(ps[0])
    ensures more ==> s.sent == old(s.sent) + AnswerTo(ps[0])
    ensures more ==> s.disconnects == old(s.disconnects)
    ensures !more ==> !s.open && s.disconnects == old(s.disconnects) + 1 && s.delivered == old(s.delivered)
    ensures !more ==> s.sent == old(s.sent) + Farewell(ps, old(s.script))
  {
    hide GetLength, GetCommand, GetSequence, PassedOn, AnswerTo;
    if s.stream != [] {
      NextHeader(s.stream, ps);
      NextBody(s.stream, ps);
    }
    Memset(buffer);
    var result := s.Recv(buffer, 0, HEADER_SIZE);
    if result == HEADER_SIZE {
      assert buffer[..HEADER_SIZE] == buffer[0..HEADER_SIZE] == ps[0][..HEADER_SIZE];
      more := ServerPacket(s, buffer, ps[0], Concat(ps[1..]));
    } else if 0 >= result {
      s.Disconnect();
      more := false;
    } else {
      s.Send(PLEASE_USE_CMP);
      s.Disconnect();
      more := false;
    }
  }

  // The rest of a turn whose header is in the buffer.
  method ServerPacket(s: Socket, buffer: array<Byte>, ghost p: Bytes, ghost rest: Bytes) returns (more: bool)
    requires WellFormed(p) && buffer.Length == HEADER_SIZE + MAX_DATA_LEN && s.open
    requires buffer[..HEADER_SIZE] == p[..HEADER_SIZE] && s.stream == p[HEADER_SIZE..] + rest
    modifies s, buffer
    ensures more <==> |p| == HEADER_SIZE || (old(s.script) != [] && old(s.script)[0] >= |p| - HEADER_SIZE)
    ensures more ==> s.open && s.stream == rest && s.disconnects == old(s.disconnects)
    ensures more ==> s.script == if |p| == HEADER_SIZE then old(s.script) else old(s.script)[1..]
    ensures more ==> s.delivered == old(s.delivered) + PassedOn(p)
    ensures more ==> s.sent == old(s.sent) + AnswerTo(p)
    ensures !more ==> !s.open && s.disconnects == old(s.disconnects) + 1
    ensures !more ==> s.delivered == old(s.delivered) && s.sent == old(s.sent) + [INVALID_PACKET]
  {
    HeaderOnly(p);
    var nTotalLen := GetLength(buffer[..HEADER_SIZE]);
    var nCommand := GetCommand(buffer[..HEADER_SIZE]);
    var nSequence := GetSequence(buffer[..HEADER_SIZE]);
    if nCommand == ENQUIRE_LINK_REQUEST {
      s.Send(EnquireResponse(nSequence));
      return true;
    }
    var nBodyLen := nTotalLen - HEADER_SIZE;
    var result := ReadBody(s, buffer, nBodyLen, p, rest);
    if result != nBodyLen {
      s.Send(INVALID_PACKET);
      s.Disconnect();
      return false;
    }
    s.Deliver(buffer[..nTotalLen]);
    return true;
  }

  lemma {:induction false} OneMore(ps: seq<Bytes>, i: nat)
    requires AllWellFormed(ps) && i < |ps|
    ensures Others(ps[..i + 1]) == Others(ps[..i]) + PassedOn(ps[i])
    ensures Answers(ps[..i + 1]) == Answers(ps[..i]) + AnswerTo(ps[i])
  {
    hide PassedOn, AnswerTo;
    if i == 0 {
      assert ps[..1] == [ps[0]] && ps[..0] == [];
    } else {
      OneMore(ps[1..], i - 1);
      assert ps[..i + 1][1..] == ps[1..][..i] && ps[..i][1..] == ps[1..][..i - 1];
      Assoc(PassedOn(ps[0]), Others(ps[1..][..i - 1]), PassedOn(ps[i]));
      Assoc(AnswerTo(ps[0]), Answers(ps[1..][..i - 1]), AnswerTo(ps[i]));
    }
  }

  lemma WholeStep(ps: seq<Bytes>, i: nat, script: Script)
    requires AllWellFormed(ps) && i <= |ps|
    ensures if Arrives(ps[i..], script) then
              i < |ps| && ps[i..][0] == ps[i] && ps[i..][1..] == ps[i + 1..]
              && Whole(ps[i..], script) == 1 + Whole(ps[i + 1..], BehindPacket(ps[i], script))
              && Farewell(ps[i..], script) == Farewell(ps[i + 1..], BehindPacket(ps[i], script))
            else Whole(ps[i..], script) == 0
  {
    assert i < |ps| ==> ps[i..][1..] == ps[i + 1..];
  }

  // After i packets, with outputs from before the loop at their fronts.
  ghost predicate Receiving(s: Socket, ps: seq<Bytes>, i: nat, script: Script, sent: seq<Text>, delivered: seq<Bytes>)
    requires AllWellFormed(ps)
    reads s
  {
    && i <= |ps| && s.open && s.stream == Concat(ps[i..])
    && Whole(ps, script) == i + Whole(ps[i..], s.script) && Farewell(ps, script) == Farewell(ps[i..], s.script)
    && s.sent == sent + Answers(ps[..i]) && s.delivered == delivered + Others(ps[..i])
  }

  ghost predicate ServerDone(s: Socket, ps: seq<Bytes>, script: Script, sent: seq<Text>, delivered: seq<Bytes>)
    requires AllWellFormed(ps)
    reads s
  {
    var k := Whole(ps, script);
    && !s.open && s.delivered == delivered + Others(ps[..k])
    && s.sent == sent + Answers(ps[..k]) + Farewell(ps, script)
  }

  // Behind what was written before: an answer to each enquiry that arrived, in order, and then the farewell.
  ghost predicate EachAnswered(s: Socket, ps: seq<Bytes>, script: Script, sent: seq<Text>)
    requires AllWellFormed(ps)
    reads s
  {
    var qs := EnquiriesIn(ps[..Whole(ps, script)]);
    && (forall q | q in qs :: |q| >= HEADER_SIZE)
    && exists answers :: AnswersOf(answers, qs) && s.sent == sent + answers + Farewell(ps, script)
  }

  lemma AllAnswered(s: Socket, ps: seq<Bytes>, script: Script, sent: seq<Text>, delivered: seq<Bytes>)
    requires AllWellFormed(ps) && ServerDone(s, ps, script, sent, delivered)
    ensures EachAnswered(s, ps, script, sent)
  {
    hide AnswersOf, EnquiriesIn, Answers, Others, Farewell;
    AnswersMatch(ps[..Whole(ps, script)]);
  }

  method ServerStep(s: Socket, buffer: array<Byte>, ghost ps: seq<Bytes>, ghost i: nat, ghost script: Script,
                    ghost sent: seq<Text>, ghost delivered: seq<Bytes>)
    returns (more: bool)
    requires AllWellFormed(ps) && Receiving(s, ps, i, script, sent, delivered)
    requires buffer.Length == HEADER_SIZE + MAX_DATA_LEN
    modifies s, buffer
    ensures more ==> Receiving(s, ps, i + 1, script, sent, delivered)
    ensures more ==> |s.script| < |old(s.script)| && s.disconnects == old(s.disconnects)
    ensures !more ==> ServerDone(s, ps, script, sent, delivered) && s.disconnects == old(s.disconnects) + 1
  {
    WholeStep(ps, i, s.script);
    more := ServerTurn(s, buffer, ps[i..]);
    if more {
      OneMore(ps, i);
      Assoc(sent, Answers(ps[..i]), AnswerTo(ps[i]));
      Assoc(delivered, Others(ps[..i]), PassedOn(ps[i]));
    }
  }

  // runSMSHandler: it ends by closing, and until then what came whole was delivered or answered.
  method RunServer(s: Socket, ghost ps: seq<Bytes>)
    requires AllWellFormed(ps) && s.stream == Concat(ps) && s.open
    modifies s
    ensures ServerDone(s, ps, old(s.script), old(s.sent), old(s.delivered))
    ensures s.disconnects == old(s.disconnects) + 1
    ensures EachAnswered(s, ps, old(s.script), old(s.sent))
  {
    hide EachAnswered;
    var buffer := NewPacket();
    ghost var i := 0;
    var more := true;
    assert ps[0..] == ps;
    while more
      invariant if more then Receiving(s, ps, i, old(s.script), old(s.sent), old(s.delivered))
                else ServerDone(s, ps, old(s.script), old(s.sent), old(s.delivered))
      invariant s.disconnects == old(s.disconnects) + if more then 0 else 1
      decreases more, |s.script|
    {
      more := ServerStep(s, buffer, ps, i, old(s.script), old(s.sent), old(s.delivered));
      i := i + 1;
    }
    AllAnswered(s, ps, old(s.script), old(s.sent), old(s.delivered));
  }
}
