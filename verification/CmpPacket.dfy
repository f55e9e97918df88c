/** CMP packets: a header of four 32-bit integers in network byte order, and a body. */
module CmpPacket {
  import opened CText
  import opened JsonTree
  import opened BitOps

  type Byte = c: char | c as int < 0x100
  type Bytes = seq<Byte>

  const HEADER_SIZE := 16
  const MAX_DATA_LEN := 2048

  const GENERIC_NACK := -0x8000_0000

  const BIND_REQUEST := 0x01
  const ACCESS_LOG_REQUEST := 0x03
  const INITIAL_REQUEST := 0x04
  const SIGN_UP_REQUEST := 0x05
  const UNBIND_REQUEST := 0x06
  const POWER_PORT_SET_REQUEST := 0x12
  const POWER_PORT_STATE_REQUEST := 0x13
  const ENQUIRE_LINK_REQUEST := 0x15
  const MDM_LOGIN_REQUEST := 0x16
  const MDM_OPERATE_REQUEST := 0x17
  const SDK_TRACKER_REQUEST := 0x18

  const POWER_PORT_STATE_RESPONSE := 0x13 - 0x8000_0000
  const ENQUIRE_LINK_RESPONSE := 0x15 - 0x8000_0000
  const MDM_LOGIN_RESPONSE := 0x16 - 0x8000_0000

  const STATUS_ROK := 0x00
  const STATUS_RINVCMDID := 0x03
  const STATUS_RSYSERR := 0x08
  const STATUS_RPPSFAIL := 0x11
  const STATUS_RPPSTAFAIL := 0x12
  const STATUS_RMDMLOGINFAIL := 0x14
  const STATUS_RINVBODY := 0x40
  const STATUS_RINVCTRLID := 0x41

  // Conversions between int and unsigned int.
  function Unsigned(n: int): (r: nat)
    ensures r < 0x1_0000_0000
  {
    n % 0x1_0000_0000
  }

  function Signed(n: int): (r: int)
    ensures IsInt32(r) && (IsInt32(n) ==> r == n)
  {
    var u := n % 0x1_0000_0000;
    if u < 0x8000_0000 then u else u - 0x1_0000_0000
  }

  // htonl, as the bytes in memory.
  function Htonl(n: int): (r: Bytes)
    ensures |r| == 4
  {
    var u := Unsigned(n);
    [(u / 0x100_0000) as char, (u / 0x1_0000 % 0x100) as char, (u / 0x100 % 0x100) as char, (u % 0x100) as char]
  }

  function Ntohl(s: Bytes): (r: int)
    requires |s| >= 4
    ensures IsInt32(r)
  {
    Signed(s[0] as int * 0x100_0000 + s[1] as int * 0x1_0000 + s[2] as int * 0x100 + s[3] as int)
  }

  lemma NtohlOfHtonl(n: int)
    requires IsInt32(n)
    ensures Ntohl(Htonl(n)) == n
  {
    hide Htonl, Signed, Unsigned;
    SignedUnsigned(n);
    ByteSum(n);
  }

  lemma SignedUnsigned(n: int)
    requires IsInt32(n)
    ensures Signed(Unsigned(n)) == n
  {}

  lemma ByteSum(n: int)
    ensures var s := Htonl(n);
            s[0] as int * 0x100_0000 + s[1] as int * 0x1_0000 + s[2] as int * 0x100 + s[3] as int == Unsigned(n)
  {
    hide Unsigned;
    BytesOf(Unsigned(n));
  }

  lemma BytesOf(u: nat)
    ensures u / 0x100_0000 * 0x100_0000 + u / 0x1_0000 % 0x100 * 0x1_0000 + u / 0x100 % 0x100 * 0x100 + u % 0x100 == u
  {
    Quotients(u);
    var a, b := u / 0x100, u / 0x1_0000;
    assert u == a * 0x100 + u % 0x100;
    assert a == b * 0x100 + a % 0x100;
    assert b == b / 0x100 * 0x100 + b % 0x100;
  }

  lemma Quotients(u: nat)
    ensures u / 0x100 / 0x100 == u / 0x1_0000 && u / 0x1_0000 / 0x100 == u / 0x100_0000
  {}

  function Header(length: int, command: int, status: int, sequence: int): (r: Bytes)
    ensures |r| == HEADER_SIZE
  {
    Htonl(length) + Htonl(command) + Htonl(status) + Htonl(sequence)
  }

  function GetLength(p: Bytes): (r: int)
    requires |p| >= HEADER_SIZE
    ensures IsInt32(r)
  {
    Ntohl(p[..4])
  }

  function GetCommand(p: Bytes): (r: int)
    requires |p| >= HEADER_SIZE
    ensures IsInt32(r)
  {
    Ntohl(p[4..8])
  }

  function GetStatus(p: Bytes): (r: int)
    requires |p| >= HEADER_SIZE
    ensures IsInt32(r)
  {
    Ntohl(p[8..12])
  }

  function GetSequence(p: Bytes): (r: int)
    requires |p| >= HEADER_SIZE
    ensures IsInt32(r)
  {
    Ntohl(p[12..16])
  }

  // The getters undo the formatting of the header, whatever follows it.
  lemma HeaderRoundTrip(length: int, command: int, status: int, sequence: int, rest: Bytes)
    requires IsInt32(length) && IsInt32(command) && IsInt32(status) && IsInt32(sequence)
    ensures var p := Header(length, command, status, sequence) + rest;
            GetLength(p) == length && GetCommand(p) == command && GetStatus(p) == status && GetSequence(p) == sequence
  {
    var p := Header(length, command, status, sequence) + rest;
    assert p[..4] == Htonl(length) && p[4..8] == Htonl(command);
    assert p[8..12] == Htonl(status) && p[12..16] == Htonl(sequence);
    NtohlOfHtonl(length);
    NtohlOfHtonl(command);
    NtohlOfHtonl(status);
    NtohlOfHtonl(sequence);
  }

  // generic_nack & nCommand, compared with generic_nack.
  predicate IsAckPacket(command: int) {
    And(Unsigned(GENERIC_NACK), Unsigned(command)) == Unsigned(GENERIC_NACK)
  }

  // generic_nack | nCommand
  function ResponseTo(command: int): (r: int)
    ensures IsInt32(r)
  {
    Signed(Or(Unsigned(GENERIC_NACK), Unsigned(command)))
  }

  lemma {:induction false} TopBitOf(u: nat, k: nat)
    requires u < 2 * Pow2(k)
    ensures And(Pow2(k), u) == (if u >= Pow2(k) then Pow2(k) else 0)
    ensures Or(Pow2(k), u) == (if u >= Pow2(k) then u else Pow2(k) + u)
    decreases k
  {
    if k == 0 {
      assert u == 0 || u == 1;
      OrStep(1, u);
      OrZero(0);
    } else {
      TopBitOf(u / 2, k - 1);
    }
  }

  lemma Pow31()
    ensures Pow2(31) == 0x8000_0000
  {
    assert Pow2(8) == 256;
    assert Pow2(16) == 256 * 256;
    assert Pow2(24) == 256 * 256 * 256;
  }

  lemma TopBit(b: nat, u: nat)
    requires b == 0x8000_0000 && u < 0x1_0000_0000
    ensures And(b, u) == (if u >= b then b else 0) && Or(b, u) == (if u >= b then u else b + u)
  {
    Pow31();
    TopBitOf(u, 31);
  }

  // The acknowledgement bit is the sign of the command id.
  lemma AckIsNegative(command: int)
    requires IsInt32(command)
    ensures IsAckPacket(command) <==> command < 0
  {
    hide And, Unsigned;
    UnsignedOf(GENERIC_NACK);
    UnsignedOf(command);
    TopBit(Unsigned(GENERIC_NACK), Unsigned(command));
  }

  lemma UnsignedOf(n: int)
    requires IsInt32(n)
    ensures Unsigned(n) == if n < 0 then n + 0x1_0000_0000 else n
  {}

  lemma SignedOf(u: nat)
    requires u < 0x1_0000_0000
    ensures Signed(u) == if u < 0x8000_0000 then u else u - 0x1_0000_0000
  {}

  lemma ResponseSetsTheBit(command: int)
    requires IsInt32(command)
    ensures ResponseTo(command) == if command < 0 then command else command - 0x8000_0000
  {
    hide And, Or, Unsigned, Signed;
    UnsignedOf(GENERIC_NACK);
    UnsignedOf(command);
    TopBit(Unsigned(GENERIC_NACK), Unsigned(command));
    SignedOf(Or(Unsigned(GENERIC_NACK), Unsigned(command)));
  }
}
