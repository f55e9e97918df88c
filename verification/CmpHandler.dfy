/** CCmpHandler, its key/value store, and the test client's encoder. */
module CmpHandler {
  import opened CText
  import opened JsonTree
  import opened CmpPacket
  import opened CmpCodec

  // CDataHandler<std::string>: the fields of a parsed body by name.
  class DataHandler {
    var mapData: Fields

    constructor ()
      ensures mapData == map[]
    {
      mapData := map[];
    }

    // setData with a std::string value.
    method SetString(name: Text, value: Bytes) returns (r: int)
      modifies this
      ensures mapData == (if IsValidStr(name) then old(mapData)[name := value] else old(mapData))
      ensures r == if IsValidStr(name) then |mapData| else -1
    {
      if IsValidStr(name) {
        mapData := mapData[name := value];
        return |mapData|;
      }
      return -1;
    }

    // setData with a char* value, which must be valid too.
    method SetChars(name: Text, value: Bytes) returns (r: int)
      modifies this
      ensures mapData
           == (if IsValidStr(name) && IsValidStr(value) then old(mapData)[name := value] else old(mapData))
      ensures r == if IsValidStr(name) && IsValidStr(value) then |mapData| else -1
    {
      r := -1;
      if IsValidStr(name) && IsValidStr(value) {
        mapData := mapData[name := value];
        r := |mapData|;
      }
    }

    // operator[]: a missing name is entered with the empty string.
    method Get(name: Text) returns (value: Bytes)
      modifies this
      ensures value == (if name in old(mapData) then old(mapData)[name] else "")
      ensures mapData == old(mapData)[name := value]
    {
      if name !in mapData {
        mapData := mapData[name := ""];
      }
      value := mapData[name];
    }
  }

  // The length of the C string at a place of a packet.
  method Strlen(p: Bytes, at: nat) returns (n: nat)
    ensures n == |CString(From(p, at))|
    ensures n > 0 ==> at + n <= |p| && p[at..at + n] == CString(From(p, at))
  {
    n := 0;
    while at + n < |p| && p[at + n] != '\0'
      invariant Scanned(p, at, n)
      decreases |p| - at - n
    {
      ScannedStep(p, at, n);
      n := n + 1;
    }
    ScannedEnd(p, at, n);
  }

  // The first n characters are read, and none of them ends the string.
  predicate Scanned(p: Bytes, at: nat, n: nat) {
    var t := CString(From(p, at));
    n <= |t| && From(p, at)[..n] == t[..n] && t[n..] == CString(From(p, at + n))
  }

  lemma ScannedStep(p: Bytes, at: nat, n: nat)
    requires Scanned(p, at, n) && at + n < |p| && p[at + n] != '\0'
    ensures Scanned(p, at, n + 1)
  {
    var s, t, rest := From(p, at), CString(From(p, at)), From(p, at + n);
    assert rest[1..] == From(p, at + n + 1);
    assert CString(rest) == [p[at + n]] + CString(rest[1..]);
    assert t[n] == t[n..][0] && t[n + 1..] == t[n..][1..];
    assert s[..n + 1] == s[..n] + [s[n]] && t[..n + 1] == t[..n] + [t[n]];
  }

  lemma ScannedEnd(p: Bytes, at: nat, n: nat)
    requires Scanned(p, at, n) && (at + n >= |p| || p[at + n] == '\0')
    ensures n == |CString(From(p, at))|
    ensures n > 0 ==> at + n <= |p| && p[at..at + n] == CString(From(p, at))
  {
    var t := CString(From(p, at));
    assert CString(From(p, at + n)) == [];
    assert t == t[..n] + t[n..];
  }

  // Copies a string field; the cursor passes it unless it is empty or too long.
  method TakeString(p: Bytes, at: nat, name: Text, rData: DataHandler) returns (next: nat)
    requires IsValidStr(name)
    modifies rData
    ensures rData.mapData == old(rData.mapData) + StringField(name, From(p, at))
    ensures From(p, next) == BehindString(From(p, at)) && next >= at
  {
    var n := Strlen(p, at);
    next := at;
    if 0 < n && MAX_SIZE > n {
      var temp: Bytes := p[at..at + n];
      var r := rData.SetChars(name, temp);
      next := at + n + 1;
    }
  }

  method TakeChar(p: Bytes, at: nat, name: Text, rData: DataHandler) returns (next: nat)
    requires IsValidStr(name)
    modifies rData
    ensures rData.mapData == old(rData.mapData) + CharField(name, From(p, at)) && next == at + 1
  {
    var temp := if at < |p| && p[at] != '\0' then [p[at]] else [];
    var r := rData.SetChars(name, temp);
    next := at + 1;
  }

  method TakeInt(p: Bytes, at: nat, name: Text, rData: DataHandler) returns (next: nat)
    requires IsValidStr(name)
    modifies rData
    ensures rData.mapData == old(rData.mapData)[name := DecimalBytes(IntField(From(p, at)))] && next == at + 4
  {
    var nType := Ntohl(From(p, at) + ['\0', '\0', '\0', '\0']);
    var r := rData.SetString(name, DecimalBytes(nType));
    next := at + 4;
  }

  lemma Merged(a: Fields, b: Fields, c: Fields)
    ensures a + b + c == a + (b + c)
  {}

  lemma FromFrom(p: Bytes, i: nat, j: nat)
    ensures From(From(p, i), j) == From(p, i + j)
  {}

  method TakeTypeAndData(p: Bytes, at: nat, rData: DataHandler)
    modifies rData
    ensures var s := From(p, at);
            rData.mapData
            == old(rData.mapData) + (map["type" := DecimalBytes(IntField(s))] + StringField("data", From(s, 4)))
  {
    ghost var s := From(p, at);
    Merged(rData.mapData, map["type" := DecimalBytes(IntField(s))], StringField("data", From(s, 4)));
    FromFrom(p, at, 4);
    var next := TakeInt(p, at, "type", rData);
    next := TakeString(p, next, "data", rData);
  }

  method TakeAccountAndPassword(p: Bytes, at: nat, rData: DataHandler)
    modifies rData
    ensures var s := From(p, at);
            rData.mapData == old(rData.mapData) + (StringField("account", s) + StringField("password", BehindString(s)))
  {
    ghost var s := From(p, at);
    Merged(rData.mapData, StringField("account", s), StringField("password", BehindString(s)));
    var next := TakeString(p, at, "account", rData);
    next := TakeString(p, next, "password", rData);
  }

  method TakeWireAndController(p: Bytes, at: nat, rData: DataHandler)
    modifies rData
    ensures var s := From(p, at);
            rData.mapData == old(rData.mapData) + (CharField("wire", s) + StringField("controller", From(s, 1)))
  {
    ghost var s := From(p, at);
    Merged(rData.mapData, CharField("wire", s), StringField("controller", From(s, 1)));
    FromFrom(p, at, 1);
    var next := TakeChar(p, at, "wire", rData);
    next := TakeString(p, next, "controller", rData);
  }

  method TakePowerPort(p: Bytes, at: nat, rData: DataHandler)
    modifies rData
    ensures var s := From(p, at);
            rData.mapData == old(rData.mapData)
              + (CharField("wire", s) + CharField("port", From(s, 1)) + CharField("state", From(s, 2))
                 + StringField("controller", From(s, 3)))
  {
    ghost var s, was := From(p, at), rData.mapData;
    ghost var wire, port, state := CharField("wire", s), CharField("port", From(s, 1)), CharField("state", From(s, 2));
    Merged(was, wire, port);
    Merged(was, wire + port, state);
    Merged(was, wire + port + state, StringField("controller", From(s, 3)));
    FromFrom(p, at, 1);
    FromFrom(p, at, 2);
    FromFrom(p, at, 3);
    var next := TakeChar(p, at, "wire", rData);
    next := TakeChar(p, next, "port", rData);
    next := TakeChar(p, next, "state", rData);
    next := TakeString(p, next, "controller", rData);
  }

  // The switch over the commands that have a body.
  method TakeFields(command: int, p: Bytes, at: nat, rData: DataHandler)
    modifies rData
    ensures rData.mapData == old(rData.mapData) + BodyFields(command, From(p, at))
  {
    var next := at;
    if command == BIND_REQUEST {
      next := TakeString(p, at, "id", rData);
    } else if command == POWER_PORT_SET_REQUEST {
      TakePowerPort(p, at, rData);
    } else if command == POWER_PORT_STATE_REQUEST {
      TakeWireAndController(p, at, rData);
    } else if command == ACCESS_LOG_REQUEST || command == SIGN_UP_REQUEST {
      TakeTypeAndData(p, at, rData);
    } else if command == INITIAL_REQUEST {
      next := TakeInt(p, at, "type", rData);
    } else if command == MDM_LOGIN_REQUEST {
      TakeAccountAndPassword(p, at, rData);
    } else if command == MDM_OPERATE_REQUEST {
      next := TakeString(p, at, "token", rData);
    } else if command == SDK_TRACKER_REQUEST {
      next := TakeString(p, at, "data", rData);
    }
  }

  // Adds the fields of the body, and returns how many fields there are then.
  method ParseBody(command: int, p: Bytes, rData: DataHandler) returns (r: int)
    requires |p| >= HEADER_SIZE
    modifies rData
    ensures BodyLength(p) > 0 ==>
              rData.mapData == old(rData.mapData) + BodyFields(command, p[HEADER_SIZE..]) && r == |rData.mapData|
    ensures BodyLength(p) <= 0 ==> rData.mapData == old(rData.mapData) && r == -1
  {
    if 0 >= BodyLength(p) {
      return -1;
    }
    TakeFields(command, p, HEADER_SIZE, rData);
    r := |rData.mapData|;
  }
}
