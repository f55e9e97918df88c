/** The body of a CMP request: encoding it, and parsing it into named fields. */
module CmpCodec {
  import opened CText
  import opened JsonTree
  import opened CmpPacket

  datatype Request =
    | Bind(id: Bytes)
    | AccessLog(kind: int, data: Bytes)
    | Initial(kind: int)
    | SignUp(kind: int, data: Bytes)
    | MdmLogin(account: Bytes, password: Bytes)
    | MdmOperate(token: Bytes)

  function Command(r: Request): int {
    match r
    case Bind(_) => BIND_REQUEST
    case AccessLog(_, _) => ACCESS_LOG_REQUEST
    case Initial(_) => INITIAL_REQUEST
    case SignUp(_, _) => SIGN_UP_REQUEST
    case MdmLogin(_, _) => MDM_LOGIN_REQUEST
    case MdmOperate(_) => MDM_OPERATE_REQUEST
  }

  const NUL: Bytes := ['\0']

  function Body(r: Request): Bytes {
    match r
    case Bind(id) => id + NUL
    case AccessLog(kind, data) => Htonl(kind) + (data + NUL)
    case Initial(kind) => Htonl(kind)
    case SignUp(kind, data) => Htonl(kind) + (data + NUL)
    case MdmLogin(account, password) => account + NUL + (password + NUL)
    case MdmOperate(token) => token + NUL
  }

  function Encode(r: Request, sequence: int): Bytes {
    Header(HEADER_SIZE + |Body(r)|, Command(r), STATUS_ROK, sequence) + Body(r)
  }

  // What can be sent: C strings that fit the body, and an int as type.
  predicate Sendable(r: Request) {
    && |Body(r)| <= MAX_DATA_LEN
    && match r
       case Bind(id) => NulFree(id)
       case AccessLog(kind, data) => IsInt32(kind) && NulFree(data)
       case Initial(kind) => IsInt32(kind)
       case SignUp(kind, data) => IsInt32(kind) && NulFree(data)
       case MdmLogin(account, password) => NulFree(account) && NulFree(password)
       case MdmOperate(token) => NulFree(token)
  }

  predicate NoEmptyString(r: Request) {
    match r
    case Bind(id) => id != []
    case AccessLog(_, data) => data != []
    case Initial(_) => true
    case SignUp(_, data) => data != []
    case MdmLogin(account, password) => account != [] && password != []
    case MdmOperate(token) => token != []
  }

  type Fields = map<Text, Bytes>

  lemma {:induction false} DigitsAreBytes(n: nat)
    ensures forall c | c in Digits(n) :: c as int < 0x100
  {
    if n >= 10 {
      DigitsAreBytes(n / 10);
    }
  }

  // ConvertToString
  function DecimalBytes(k: int): Bytes {
    DigitsAreBytes(if k < 0 then -k else k);
    var t: Text := Decimal(k);
    t
  }

  // The fields a receiver should see.
  function Content(r: Request): Fields {
    match r
    case Bind(id) => map["id" := id]
    case AccessLog(kind, data) => map["type" := DecimalBytes(kind), "data" := data]
    case Initial(kind) => map["type" := DecimalBytes(kind)]
    case SignUp(kind, data) => map["type" := DecimalBytes(kind), "data" := data]
    case MdmLogin(account, password) => map["account" := account, "password" := password]
    case MdmOperate(token) => map["token" := token]
  }

  const MAX_SIZE := 2048

  predicate IsValidStr(s: Text) {
    0 < |s| < MAX_SIZE
  }

  // Behind the packet, memory reads as NUL.
  function From(p: Bytes, at: nat): Bytes {
    if at <= |p| then p[at..] else []
  }

  function CString(s: Bytes): (t: Bytes)
    ensures |t| <= |s| && NulFree(t)
  {
    if s == [] || s[0] == '\0' then [] else [s[0]] + CString(s[1..])
  }

  // A string field that is empty or too long is left out, and nothing is skipped for it.
  function StringField(name: Text, s: Bytes): Fields {
    if IsValidStr(CString(s)) then map[name := CString(s)] else map[]
  }

  function BehindString(s: Bytes): Bytes {
    if IsValidStr(CString(s)) then From(s, |CString(s)| + 1) else s
  }

  function CharField(name: Text, s: Bytes): Fields {
    if s == [] || s[0] == '\0' then map[] else map[name := [s[0]]]
  }

  function IntField(s: Bytes): int {
    Ntohl(s + ['\0', '\0', '\0', '\0'])
  }

  // The fields of the body s of a request.
  function BodyFields(command: int, s: Bytes): Fields {
    if command == BIND_REQUEST then StringField("id", s)
    else if command == POWER_PORT_SET_REQUEST then
      CharField("wire", s) + CharField("port", From(s, 1)) + CharField("state", From(s, 2))
      + StringField("controller", From(s, 3))
    else if command == POWER_PORT_STATE_REQUEST then CharField("wire", s) + StringField("controller", From(s, 1))
    else if command == ACCESS_LOG_REQUEST || command == SIGN_UP_REQUEST then
      map["type" := DecimalBytes(IntField(s))] + StringField("data", From(s, 4))
    else if command == INITIAL_REQUEST then map["type" := DecimalBytes(IntField(s))]
    else if command == MDM_LOGIN_REQUEST then StringField("account", s) + StringField("password", BehindString(s))
    else if command == MDM_OPERATE_REQUEST then StringField("token", s)
    else if command == SDK_TRACKER_REQUEST then StringField("data", s)
    else map[]
  }

  function BodyLength(p: Bytes): int
    requires |p| >= HEADER_SIZE
  {
    Signed(GetLength(p) - HEADER_SIZE)
  }

  lemma {:induction false} CStringOf(t: Bytes, rest: Bytes)
    requires NulFree(t)
    ensures CString(t + (NUL + rest)) == t
  {
    var s := t + (NUL + rest);
    if t == [] {
      assert s[0] == '\0';
    } else {
      CStringOf(t[1..], rest);
      assert s[1..] == t[1..] + (NUL + rest);
    }
  }

  lemma StringFieldOf(name: Text, t: Bytes, rest: Bytes)
    requires NulFree(t) && |t| < MAX_SIZE
    ensures StringField(name, t + NUL + rest) == Filled(name, t)
    ensures BehindString(t + NUL + rest) == (if t == [] then NUL + rest else rest)
  {
    CStringOf(t, rest);
    assert t + NUL + rest == t + (NUL + rest);
    assert t == [] ==> t + (NUL + rest) == NUL + rest;
  }

  lemma IntFieldOf(kind: int, rest: Bytes)
    requires IsInt32(kind)
    ensures IntField(Htonl(kind) + rest) == kind && From(Htonl(kind) + rest, 4) == rest
  {
    NtohlOfHtonl(kind);
  }

  function Filled(name: Text, t: Bytes): Fields {
    if t == [] then map[] else map[name := t]
  }

  // What is received: an empty string is lost, and the strings behind it with it.
  function Received(r: Request): Fields {
    match r
    case Bind(id) => Filled("id", id)
    case AccessLog(kind, data) => map["type" := DecimalBytes(kind)] + Filled("data", data)
    case Initial(kind) => map["type" := DecimalBytes(kind)]
    case SignUp(kind, data) => map["type" := DecimalBytes(kind)] + Filled("data", data)
    case MdmLogin(account, password) =>
      if account == [] then map[] else Filled("account", account) + Filled("password", password)
    case MdmOperate(token) => Filled("token", token)
  }

  lemma ReceivedWhole(r: Request)
    ensures Received(r) == Content(r) <==> NoEmptyString(r)
  {
    match r {
      case Bind(id) => assert "id" in Received(r) <==> id != [];
      case MdmOperate(token) => assert "token" in Received(r) <==> token != [];
      case AccessLog(kind, data) => assert "data" in Received(r) <==> data != [];
      case SignUp(kind, data) => assert "data" in Received(r) <==> data != [];
      case MdmLogin(account, password) =>
        assert "password" in Received(r) <==> account != [] && password != [];
      case _ =>
    }
  }

  lemma FieldsOf(r: Request, rest: Bytes)
    requires Sendable(r)
    ensures BodyFields(Command(r), Body(r) + rest) == Received(r)
  {
    match r {
      case Bind(id) => StringFieldOf("id", id, rest);
      case AccessLog(kind, data) => TypeAndData(kind, data, rest);
      case Initial(kind) => IntFieldOf(kind, rest);
      case SignUp(kind, data) => TypeAndData(kind, data, rest);
      case MdmLogin(account, password) => AccountAndPassword(account, password, rest);
      case MdmOperate(token) => StringFieldOf("token", token, rest);
    }
  }

  lemma TypeAndData(kind: int, data: Bytes, rest: Bytes)
    requires IsInt32(kind) && NulFree(data) && |data| < MAX_SIZE
    ensures var s := Htonl(kind) + (data + NUL) + rest;
            IntField(s) == kind && StringField("data", From(s, 4)) == Filled("data", data)
  {
    assert Htonl(kind) + (data + NUL) + rest == Htonl(kind) + (data + NUL + rest);
    IntFieldOf(kind, data + NUL + rest);
    StringFieldOf("data", data, rest);
  }

  lemma AccountAndPassword(account: Bytes, password: Bytes, rest: Bytes)
    requires NulFree(account) && |account| < MAX_SIZE && NulFree(password) && |password| < MAX_SIZE
    ensures var s := account + NUL + (password + NUL) + rest;
            var received := StringField("account", s) + StringField("password", BehindString(s));
            received == if account == [] then map[] else Filled("account", account) + Filled("password", password)
  {
    assert account + NUL + (password + NUL) + rest == account + NUL + (password + NUL + rest);
    StringFieldOf("account", account, password + NUL + rest);
    if account == [] {
      StringFieldOf("password", [], password + NUL + rest);
      assert [] + NUL == NUL;
    } else {
      StringFieldOf("password", password, rest);
    }
  }

  // A packet in a zero-filled buffer comes back with its header, and with its fields unless a string is empty.
  lemma RoundTrip(r: Request, sequence: int, pad: Bytes)
    requires Sendable(r) && IsInt32(sequence)
    ensures var p := Encode(r, sequence) + pad;
            && GetCommand(p) == Command(r) && GetStatus(p) == STATUS_ROK && GetSequence(p) == sequence
            && GetLength(p) == |Encode(r, sequence)| && BodyLength(p) == |Body(r)| > 0
            && (BodyFields(GetCommand(p), p[HEADER_SIZE..]) == Content(r) <==> NoEmptyString(r))
  {
    var p := Encode(r, sequence) + pad;
    var h := Header(HEADER_SIZE + |Body(r)|, Command(r), STATUS_ROK, sequence);
    assert p == h + (Body(r) + pad) && p[HEADER_SIZE..] == Body(r) + pad;
    HeaderRoundTrip(HEADER_SIZE + |Body(r)|, Command(r), STATUS_ROK, sequence, Body(r) + pad);
    FieldsOf(r, pad);
    ReceivedWhole(r);
  }
}
