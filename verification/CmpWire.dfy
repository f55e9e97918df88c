/** Packets as the bytes on the wire: four words, highest byte first, and a body. */
module CmpWire {
  import opened CText
  import opened JsonTree
  import opened CmpPacket
  import opened CmpCodec
  import opened CmpControlCenter

  predicate IsWord(s: Bytes, n: nat) {
    |s| == 4 && n == ((s[0] as int * 256 + s[1] as int) * 256 + s[2] as int) * 256 + s[3] as int
  }

  // The length of the whole, the id, the status and the sequence number, unsigned, in front of the body.
  predicate IsPacket(p: Bytes, id: nat, status: nat, sequence: nat, body: Bytes) {
    && |p| == 16 + |body| && IsWord(p[..4], |p|) && IsWord(p[4..8], id) && IsWord(p[8..12], status)
    && IsWord(p[12..16], sequence) && p[16..] == body
  }

  predicate IsSent(s: Sent, fd: int, id: nat, status: nat, sequence: nat, body: Bytes) {
    s.fd == fd && IsPacket(s.packet, id, status, sequence, body)
  }

  // One packet was written behind the others.
  predicate Adds(was: seq<Sent>, now: seq<Sent>, fd: int, id: nat, status: nat, sequence: nat, body: Bytes) {
    |now| == |was| + 1 && was <= now && IsSent(now[|was|], fd, id, status, sequence, body)
  }

  lemma WordRead(s: Bytes, n: nat)
    requires IsWord(s, n)
    ensures |s| == 4 && n < 0x1_0000_0000 && Ntohl(s) == Signed(n)
  {}

  lemma WordWritten(n: int)
    ensures IsWord(Htonl(n), Unsigned(n))
  {
    hide Htonl, Unsigned;
    ByteSum(n);
  }

  // The getters read these words, as signed integers.
  lemma PacketRead(p: Bytes, id: nat, status: nat, sequence: nat, body: Bytes)
    requires IsPacket(p, id, status, sequence, body) && |body| <= MAX_DATA_LEN
    ensures GetLength(p) == |p| && GetCommand(p) == Signed(id) && GetStatus(p) == Signed(status)
    ensures GetSequence(p) == Signed(sequence) && id < 0x1_0000_0000 && sequence < 0x1_0000_0000
    ensures BodyLength(p) == |body| && p[HEADER_SIZE..] == body
  {
    hide Ntohl, Signed, IsWord;
    WordRead(p[..4], |p|);
    WordRead(p[4..8], id);
    WordRead(p[8..12], status);
    WordRead(p[12..16], sequence);
    SignedOf(|p|);
    SignedOf(|body|);
  }

  // What is formatted consists of these words.
  lemma PacketWritten(command: int, status: int, sequence: int, body: Bytes)
    requires |body| <= MAX_DATA_LEN
    ensures IsPacket(Header(HEADER_SIZE + |body|, command, status, sequence) + body,
                     Unsigned(command), Unsigned(status), Unsigned(sequence), body)
  {
    hide IsWord, Htonl, Unsigned;
    var p := Header(HEADER_SIZE + |body|, command, status, sequence) + body;
    WordWritten(|p|);
    WordWritten(command);
    WordWritten(status);
    WordWritten(sequence);
    UnsignedOf(|p|);
    assert p[..4] == Htonl(|p|) && p[4..8] == Htonl(command);
    assert p[8..12] == Htonl(status) && p[12..16] == Htonl(sequence) && p[16..] == body;
  }

  lemma UnsignedBack(n: nat)
    requires n < 0x1_0000_0000
    ensures Unsigned(Signed(n)) == n
  {}

  lemma ResponseId(command: int)
    requires 0 <= command < 0x8000_0000
    ensures Unsigned(ResponseTo(command)) == 0x8000_0000 + command
  {
    hide Unsigned, ResponseTo;
    ResponseSetsTheBit(command);
    UnsignedOf(ResponseTo(command));
  }

  // A response to a request numbered n, without and with a string.
  lemma BareOnWire(fd: int, command: int, status: int, n: nat)
    requires 0 <= command < 0x8000_0000 && 0 <= status < 0x100 && n < 0x1_0000_0000
    ensures IsSent(PacketOf(Bare(fd, ResponseTo(command), status, Signed(n))), fd,
                   0x8000_0000 + command, status, n, [])
  {
    hide Header, IsPacket, Unsigned, Signed, ResponseTo;
    PacketWritten(ResponseTo(command), status, Signed(n), []);
    ResponseId(command);
    UnsignedBack(n);
    UnsignedOf(status);
  }

  lemma TextOnWire(fd: int, command: int, n: nat, t: Bytes)
    requires 0 <= command < 0x8000_0000 && n < 0x1_0000_0000 && |t| < MAX_DATA_LEN
    ensures IsSent(PacketOf(WithText(fd, ResponseTo(command), Signed(n), t)), fd,
                   0x8000_0000 + command, 0, n, t + NUL)
  {
    hide Header, IsPacket, Unsigned, Signed, ResponseTo;
    PacketWritten(ResponseTo(command), STATUS_ROK, Signed(n), t + NUL);
    ResponseId(command);
    UnsignedBack(n);
    UnsignedOf(STATUS_ROK);
  }
}
