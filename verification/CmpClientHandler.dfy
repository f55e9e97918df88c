/** parseBody of the AW-2401 controller, which reads some bodies differently from the center's. */
module CmpClientHandler {
  import opened CText
  import opened JsonTree
  import opened CmpPacket
  import opened CmpCodec
  import opened CmpHandler

  function Number(name: Text, s: Bytes): Fields {
    map[name := DecimalBytes(IntField(s))]
  }

  // The fields of the body s: a log has a type of one character, power requests have integers.
  function ClientFields(command: int, s: Bytes): Fields {
    if command == ACCESS_LOG_REQUEST then CharField("type", s) + StringField("data", From(s, 1))
    else if command == POWER_PORT_STATE_REQUEST then Number("wire", s)
    else if command == POWER_PORT_SET_REQUEST then
      Number("wire", s) + Number("port", From(s, 4))
      + CharField("state", From(s, 8)) + StringField("controller", From(s, 9))
    else if command == SDK_TRACKER_REQUEST then map[]
    else BodyFields(command, s)
  }

  // The fields a packet brings; none if the header leaves no room for a body.
  function ClientFieldsIn(p: Bytes): Fields
    requires |p| >= HEADER_SIZE
  {
    if BodyLength(p) > 0 then ClientFields(GetCommand(p), p[HEADER_SIZE..]) else map[]
  }

  method TakeTypeAndLog(p: Bytes, at: nat, rData: DataHandler)
    modifies rData
    ensures var s := From(p, at);
            rData.mapData == old(rData.mapData) + (CharField("type", s) + StringField("data", From(s, 1)))
  {
    ghost var s := From(p, at);
    Merged(rData.mapData, CharField("type", s), StringField("data", From(s, 1)));
    FromFrom(p, at, 1);
    var next := TakeChar(p, at, "type", rData);
    next := TakeString(p, next, "data", rData);
  }

  method TakeSetting(p: Bytes, at: nat, rData: DataHandler)
    modifies rData
    ensures var s := From(p, at);
            rData.mapData == old(rData.mapData) + ClientFields(POWER_PORT_SET_REQUEST, s)
  {
    hide StringField, CharField, IntField, DecimalBytes, From, IsValidStr, BehindString;
    ghost var s, was := From(p, at), rData.mapData;
    ghost var numbers := Number("wire", s) + Number("port", From(s, 4));
    ghost var state := CharField("state", From(s, 8));
    Merged(was, numbers, state);
    Merged(was, numbers + state, StringField("controller", From(s, 9)));
    FromFrom(p, at, 8);
    FromFrom(p, at, 9);
    ValidNames();
    var next := TakeWireAndPort(p, at, rData);
    next := TakeChar(p, next, "state", rData);
    next := TakeString(p, next, "controller", rData);
  }

  lemma ValidNames()
    ensures IsValidStr("wire") && IsValidStr("port") && IsValidStr("state") && IsValidStr("controller")
  {}

  method TakeWireAndPort(p: Bytes, at: nat, rData: DataHandler) returns (next: nat)
    modifies rData
    ensures next == at + 8
    ensures var s := From(p, at);
            rData.mapData == old(rData.mapData) + (Number("wire", s) + Number("port", From(s, 4)))
  {
    ghost var s := From(p, at);
    Merged(rData.mapData, Number("wire", s), Number("port", From(s, 4)));
    FromFrom(p, at, 4);
    next := TakeInt(p, at, "wire", rData);
    next := TakeInt(p, next, "port", rData);
  }

  // The switch over the commands that have a body.
  method TakeClientFields(command: int, p: Bytes, at: nat, rData: DataHandler)
    modifies rData
    ensures rData.mapData == old(rData.mapData) + ClientFields(command, From(p, at))
  {
    var next := at;
    if command == BIND_REQUEST {
      next := TakeString(p, at, "id", rData);
    } else if command == ACCESS_LOG_REQUEST {
      TakeTypeAndLog(p, at, rData);
    } else if command == INITIAL_REQUEST {
      next := TakeInt(p, at, "type", rData);
    } else if command == SIGN_UP_REQUEST {
      TakeTypeAndData(p, at, rData);
    } else if command == MDM_LOGIN_REQUEST {
      TakeAccountAndPassword(p, at, rData);
    } else if command == MDM_OPERATE_REQUEST {
      next := TakeString(p, at, "token", rData);
    } else if command == POWER_PORT_STATE_REQUEST {
      next := TakeInt(p, at, "wire", rData);
    } else if command == POWER_PORT_SET_REQUEST {
      TakeSetting(p, at, rData);
    }
  }

  // The fields of the body, and how many there are, or -1 if there is no body.
  method ParseClientBody(p: Bytes) returns (rData: DataHandler, nRet: int)
    requires |p| >= HEADER_SIZE
    ensures fresh(rData) && rData.mapData == ClientFieldsIn(p) && (0 < nRet <==> ClientFieldsIn(p) != map[])
  {
    rData := new DataHandler();
    nRet := -1;
    if 0 < BodyLength(p) {
      TakeClientFields(GetCommand(p), p, HEADER_SIZE, rData);
      assert map[] + ClientFieldsIn(p) == ClientFieldsIn(p);
      nRet := |rData.mapData|;
    }
  }

  // convertFromString on what ConvertToString has written.
  function FromDecimal(s: Text): int {
    if StartsWith(s, '-') then -TakeDigits(s[1..], 0).0 else TakeDigits(s, 0).0
  }

  lemma DecimalReadBack(k: int)
    ensures FromDecimal(DecimalBytes(k)) == k
  {
    var n := if k < 0 then -k else k;
    TakeDigitsOfDigits(n, []);
    assert Digits(n) + [] == Digits(n);
    if k < 0 {
      assert Decimal(k)[1..] == Digits(n);
    } else {
      assert IsDigit(Digits(n)[0]);
    }
  }
}
