/** The controller's receive loop, and what both loops guarantee. */
module CmpClientFraming {
  import opened CText
  import opened JsonTree
  import opened CmpPacket
  import opened CmpEncoder
  import opened CmpFraming

  // One turn of runSMSSocketReceive: enquiries are delivered like any other packet.
  method ClientTurn(s: Socket, buffer: array<Byte>, ghost ps: seq<Bytes>) returns (more: bool)
    requires AllWellFormed(ps) && s.stream == Concat(ps) && s.open && buffer.Length == HEADER_SIZE + MAX_DATA_LEN
    modifies s, buffer
    ensures more <==> Arrives(ps, old(s.script))
    ensures more ==> s.open && s.stream == Concat(ps[1..]) && s.script == BehindPacket(ps[0], old(s.script))
    ensures more ==> s.delivered == old(s.delivered) + [ps[0]] && s.disconnects == old(s.disconnects)
    ensures !more ==> !s.open && s.disconnects == old(s.disconnects) + 1 && s.delivered == old(s.delivered)
    ensures s.sent == old(s.sent)
  {
    hide GetLength, GetCommand, GetSequence;
    if s.stream != [] {
      NextHeader(s.stream, ps);
      NextBody(s.stream, ps);
    }
    Memset(buffer);
    var result := s.Recv(buffer, 0, HEADER_SIZE);
    if result != HEADER_SIZE {
      s.Disconnect();
      return false;
    }
    assert buffer[..HEADER_SIZE] == buffer[0..HEADER_SIZE] == ps[0][..HEADER_SIZE];
    var nTotalLen := GetLength(buffer[..HEADER_SIZE]);
    var nBodyLen := nTotalLen - HEADER_SIZE;
    result := ReadBody(s, buffer, nBodyLen, ps[0], Concat(ps[1..]));
    if result != nBodyLen {
      s.Disconnect();
      return false;
    }
    s.Deliver(buffer[..nTotalLen]);
    return true;
  }

  ghost predicate Receiving(s: Socket, ps: seq<Bytes>, i: nat, script: Script, delivered: seq<Bytes>)
    requires AllWellFormed(ps)
    reads s
  {
    && i <= |ps| && s.open && s.stream == Concat(ps[i..])
    && Whole(ps, script) == i + Whole(ps[i..], s.script) && s.delivered == delivered + ps[..i]
  }

  // runSMSSocketReceive: it ends by closing, and until then what came whole was delivered.
  method RunClient(s: Socket, ghost ps: seq<Bytes>)
    requires AllWellFormed(ps) && s.stream == Concat(ps) && s.open
    modifies s
    ensures !s.open && s.disconnects == old(s.disconnects) + 1 && s.sent == old(s.sent)
    ensures s.delivered == old(s.delivered) + ps[..Whole(ps, old(s.script))]
  {
    hide Whole, Concat, WellFormed, Zeros;
    var buffer := NewPacket();
    ghost var i := 0;
    var more := true;
    assert ps[0..] == ps;
    while more
      invariant if more then Receiving(s, ps, i, old(s.script), old(s.delivered))
                else !s.open && s.delivered == old(s.delivered) + ps[..Whole(ps, old(s.script))]
      invariant s.sent == old(s.sent) && s.disconnects == old(s.disconnects) + if more then 0 else 1
      decreases more, |s.script|
    {
      WholeStep(ps, i, s.script);
      more := ClientTurn(s, buffer, ps[i..]);
      if more {
        assert ps[..i + 1] == ps[..i] + [ps[i]];
        i := i + 1;
      }
    }
  }

  // A stream can be cut into well-formed packets in one way only.
  lemma {:induction false} OneCutting(ps: seq<Bytes>, qs: seq<Bytes>)
    requires AllWellFormed(ps) && AllWellFormed(qs) && Concat(ps) == Concat(qs)
    ensures ps == qs
  {
    if ps != [] {
      NextHeader(Concat(ps), ps);
      NextHeader(Concat(ps), qs);
      assert Concat(ps)[..|ps[0]|] == ps[0] && Concat(qs)[..|ps[0]|] == qs[0];
      assert Concat(ps)[|ps[0]|..] == Concat(ps[1..]) && Concat(qs)[|ps[0]|..] == Concat(qs[1..]);
      OneCutting(ps[1..], qs[1..]);
      assert ps == [ps[0]] + ps[1..] && qs == [qs[0]] + qs[1..];
    }
  }

  // If no read is cut short, every packet arrives.
  lemma {:induction false} AllArrive(ps: seq<Bytes>, script: Script)
    requires AllWellFormed(ps) && |script| >= 2 * |ps|
    requires forall i | 0 <= i < |script| :: script[i] >= MAX_DATA_LEN
    ensures Whole(ps, script) == |ps|
  {
    if ps != [] {
      AllArrive(ps[1..], BehindPacket(ps[0], script));
    }
  }

  // The packets that arrive do not depend on reads behind the first short one.
  lemma {:induction false} ShortReadEnds(ps: seq<Bytes>, script: Script, later: Script)
    requires AllWellFormed(ps) && Whole(ps, script) < |ps| && !Starved(ps, script)
    ensures Whole(ps, script + later) == Whole(ps, script)
  {
    assert (script + later)[0] == script[0];
    if Arrives(ps, script) {
      var rest := BehindPacket(ps[0], script);
      assert BehindPacket(ps[0], script + later) == rest + later;
      ShortReadEnds(ps[1..], rest, later);
    }
  }

  // The script ends before a read that some packet needs.
  predicate Starved(ps: seq<Bytes>, script: Script)
    requires AllWellFormed(ps)
  {
    ps != [] &&
    if script == [] then true
    else if script[0] < HEADER_SIZE then false
    else if |ps[0]| > HEADER_SIZE && |script| == 1 then true
    else !BodyIsShort(ps[0], script) && Starved(ps[1..], BehindPacket(ps[0], script))
  }

  // An answer is a bare header: the enquiry's sequence number, with the id of the response.
  lemma AnswerFields(sequence: int)
    requires IsInt32(sequence)
    ensures var a := EnquireResponse(sequence);
            && GetLength(a) == |a| == HEADER_SIZE && GetCommand(a) == ENQUIRE_LINK_REQUEST - 0x8000_0000
            && GetStatus(a) == STATUS_ROK && GetSequence(a) == sequence && IsAckPacket(GetCommand(a))
  {
    var id := ResponseTo(ENQUIRE_LINK_REQUEST);
    ResponseSetsTheBit(ENQUIRE_LINK_REQUEST);
    HeaderRoundTrip(HEADER_SIZE, id, STATUS_ROK, sequence, []);
    assert EnquireResponse(sequence) + [] == EnquireResponse(sequence);
    AckIsNegative(id);
  }

  function Enquiries(ps: seq<Bytes>): nat
    requires AllWellFormed(ps)
  {
    if ps == [] then 0 else (if IsEnquiry(ps[0]) then 1 else 0) + Enquiries(ps[1..])
  }

  // Every packet is either answered or passed on, never both.
  lemma {:induction false} AnsweredOrPassedOn(ps: seq<Bytes>)
    requires AllWellFormed(ps)
    ensures |Answers(ps)| == Enquiries(ps) && |Answers(ps)| + |Others(ps)| == |ps|
    ensures forall p | p in Others(ps) :: p in ps && !IsEnquiry(p)
  {
    if ps != [] {
      AnsweredOrPassedOn(ps[1..]);
    }
  }
}
