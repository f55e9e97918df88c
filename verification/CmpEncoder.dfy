/** Building a packet in a buffer: the header in place, the body behind it through a moving index. */
module CmpEncoder {
  import opened CText
  import opened JsonTree
  import opened CmpPacket
  import opened CmpCodec

  // t stands at the start of the buffer and the rest is zero.
  ghost predicate Holds(packet: array<Byte>, t: Bytes)
    reads packet
  {
    |t| <= packet.Length && packet[..|t|] == t && forall i | |t| <= i < packet.Length :: packet[i] == '\0'
  }

  function Zeros(n: nat): (r: Bytes)
    ensures |r| == n && forall i | 0 <= i < n :: r[i] == '\0'
  {
    if n == 0 then [] else Zeros(n - 1) + ['\0']
  }

  method NewPacket() returns (packet: array<Byte>)
    ensures fresh(packet) && packet.Length == HEADER_SIZE + MAX_DATA_LEN
    ensures Holds(packet, Zeros(HEADER_SIZE))
  {
    packet := new Byte[HEADER_SIZE + MAX_DATA_LEN](_ => '\0');
  }

  method Memcpy(out: array<Byte>, at: nat, t: Bytes)
    requires at + |t| <= out.Length
    modifies out
    ensures out[at..at + |t|] == t
    ensures forall j | 0 <= j < out.Length && !(at <= j < at + |t|) :: out[j] == old(out[j])
  {
    for i := 0 to |t|
      invariant forall j | 0 <= j < i :: out[at + j] == t[j]
      invariant forall j | 0 <= j < out.Length && !(at <= j < at + i) :: out[j] == old(out[j])
    {
      out[at + i] := t[i];
    }
  }

  // Writes t behind what the buffer holds.
  method Append(packet: array<Byte>, at: nat, t: Bytes, ghost s: Bytes) returns (next: nat)
    requires Holds(packet, s) && at == |s| && at + |t| <= packet.Length
    modifies packet
    ensures next == at + |t| && Holds(packet, s + t)
  {
    Memcpy(packet, at, t);
    next := at + |t|;
    assert packet[..next] == packet[..at] + packet[at..next];
    assert packet[..at] == old(packet[..at]);
  }

  // t at this place of the text, where |t| characters were, and all else as it was.
  ghost function Put(s: Bytes, at: nat, t: Bytes): (r: Bytes)
    requires at + |t| <= |s|
    ensures |r| == |s|
  {
    s[..at] + t + s[at + |t|..]
  }

  method Overwrite(packet: array<Byte>, at: nat, t: Bytes, ghost s: Bytes)
    requires Holds(packet, s) && at + |t| <= |s|
    modifies packet
    ensures Holds(packet, Put(s, at, t))
  {
    Memcpy(packet, at, t);
    var n := |s|;
    assert packet[..n] == packet[..at] + packet[at..at + |t|] + packet[at + |t|..n];
    assert packet[..at] == s[..at];
    assert packet[at + |t|..n] == s[at + |t|..];
  }

  lemma AllPut(s: Bytes, a: Bytes, b: Bytes, c: Bytes, d: Bytes)
    requires |s| >= 16 && |a| == |b| == |c| == |d| == 4
    ensures Put(Put(Put(Put(s, 4, b), 8, c), 12, d), 0, a) == a + b + c + d + s[16..]
  {
    var s1 := Put(s, 4, b);
    var s2 := Put(s1, 8, c);
    var s3 := Put(s2, 12, d);
    assert s1[..8] == s[..4] + b && s1[8..] == s[8..];
    assert s2[..12] == s1[..8] + c && s2[12..] == s[12..];
    assert s3[..16] == s2[..12] + d && s3[16..] == s[16..];
    assert s3[4..] == b + c + d + s[16..];
    assert a + (b + c + d + s[16..]) == a + b + c + d + s[16..];
  }

  // The header fields are overwritten in place; any of the body stays.
  method SetHeader(packet: array<Byte>, length: int, command: int, status: int, sequence: int, ghost s: Bytes)
    requires Holds(packet, s) && |s| >= HEADER_SIZE
    modifies packet
    ensures Holds(packet, Header(length, command, status, sequence) + s[HEADER_SIZE..])
  {
    hide Holds, Put, Htonl;
    ghost var a, b, c, d := Htonl(length), Htonl(command), Htonl(status), Htonl(sequence);
    AllPut(s, a, b, c, d);
    Overwrite(packet, 4, Htonl(command), s);
    Overwrite(packet, 8, Htonl(status), Put(s, 4, b));
    Overwrite(packet, 12, Htonl(sequence), Put(Put(s, 4, b), 8, c));
    Overwrite(packet, 0, Htonl(length), Put(Put(Put(s, 4, b), 8, c), 12, d));
  }

  // The text and its terminating NUL.
  method AppendString(packet: array<Byte>, at: nat, t: Bytes, ghost s: Bytes) returns (next: nat)
    requires Holds(packet, s) && at == |s| && at + |t| + 1 <= packet.Length
    modifies packet
    ensures next == at + |t| + 1 && Holds(packet, s + (t + NUL))
  {
    next := Append(packet, at, t, s);
    next := Append(packet, next, NUL, s + t);
    assert s + t + NUL == s + (t + NUL);
  }

  method AppendBody(packet: array<Byte>, request: Request, ghost s: Bytes) returns (bodyLength: nat)
    requires Holds(packet, s) && |s| == HEADER_SIZE && HEADER_SIZE + |Body(request)| <= packet.Length
    modifies packet
    ensures bodyLength == |Body(request)| && Holds(packet, s + Body(request))
  {
    hide Holds, Htonl;
    var index := HEADER_SIZE;
    match request {
      case Bind(id) => index := AppendString(packet, index, id, s);
      case AccessLog(kind, data) => index := AppendTyped(packet, index, kind, data, s);
      case Initial(kind) => index := Append(packet, index, Htonl(kind), s);
      case SignUp(kind, data) => index := AppendTyped(packet, index, kind, data, s);
      case MdmLogin(account, password) =>
        index := AppendString(packet, index, account, s);
        index := AppendString(packet, index, password, s + (account + NUL));
        assert s + (account + NUL) + (password + NUL) == s + Body(request);
      case MdmOperate(token) => index := AppendString(packet, index, token, s);
    }
    bodyLength := index - HEADER_SIZE;
  }

  method AppendTyped(packet: array<Byte>, at: nat, kind: int, data: Bytes, ghost s: Bytes) returns (next: nat)
    requires Holds(packet, s) && at == |s| && at + 4 + |data| + 1 <= packet.Length
    modifies packet
    ensures next == at + 4 + |data| + 1 && Holds(packet, s + (Htonl(kind) + (data + NUL)))
  {
    next := Append(packet, at, Htonl(kind), s);
    next := AppendString(packet, next, data, s + Htonl(kind));
    assert s + Htonl(kind) + (data + NUL) == s + (Htonl(kind) + (data + NUL));
  }

  // CCmpTest::formatPacket, for any strings and type.
  method FormatPacket(request: Request, sequence: int, out: array<Byte>) returns (total: nat)
    requires |Body(request)| <= MAX_DATA_LEN && out.Length >= HEADER_SIZE + |Body(request)|
    modifies out
    ensures total == |Encode(request, sequence)|
    ensures out[..total] == Encode(request, sequence) && out[total..] == old(out[total..])
  {
    var packet := NewPacket();
    var bodyLength := AppendBody(packet, request, Zeros(HEADER_SIZE));
    total := HEADER_SIZE + bodyLength;
    SetHeader(packet, total, Command(request), STATUS_ROK, sequence, Zeros(HEADER_SIZE) + Body(request));
    assert (Zeros(HEADER_SIZE) + Body(request))[HEADER_SIZE..] == Body(request);
    CopyOut(packet, total, out, Encode(request, sequence));
  }

  method CopyOut(packet: array<Byte>, total: nat, out: array<Byte>, ghost t: Bytes)
    requires Holds(packet, t) && total == |t| <= out.Length
    modifies out
    ensures out[..total] == t && out[total..] == old(out[total..])
  {
    Memcpy(out, 0, packet[..total]);
    assert out[..total] == out[0..total];
  }
}
