// The other encoders, and the parsers of the commands they answer.
module Responses {
  import opened Bytes
  import opened ByteBuffer
  import opened Frames
  import opened Framing
  import opened Gateway
  import opened Options
  import Book
  import opened Protocol
  import opened Sequences

  const DEL_DEVICE_FEEDBACK: word16 := 0x000A
  const DEVICEATTRIBUTE: word16 := 0x000B
  const DEVICE_WARNING_RSP: word16 := 0x000D
  const DEVICE_ONOFF_RSP: word16 := 0x0010
  const DEVICE_LEVEL_RSP: word16 := 0x0011
  const DEVICE_RESPONSE: word16 := 0x0013
  const STATUS_REPORT: word16 := 0x0015
  const READ_ONOFF_RSP: word16 := 0x0016

  datatype Response = Response(ieee: word64, serialnum: word32, clusterid: word16, endpoint: byte, cmdInd: byte,
    status: byte)

  datatype LevelResponse = LevelResponse(ieee: word64, serialnum: word32, endpoint: byte, deviceState: byte,
    status: byte)

  datatype ReadOnOff = ReadOnOff(ieee: word64, serialnum: word32, endpoint: byte, state: byte)

  datatype DelDevice = DelDevice(ieee: word64, serialnum: word32)

  datatype GetDeviceAttr = GetDeviceAttr(ieee: word64, serialnum: word32, endpoint: byte)

  // ---- the fields of the messages

  // the fields most messages begin with
  function Serial(serialnum: word32, ieee: word64): (s: seq<byte>)
    ensures |s| == 12
  {
    BigEndian(serialnum, 4) + BigEndian(ieee, 8)
  }

  function GeneralFields(r: Response): seq<byte> {
    BigEndian(r.ieee, 8) + BigEndian(r.clusterid, 2) + [r.endpoint, r.cmdInd, r.status]
  }

  function OnOffFields(r: Response): seq<byte> {
    Serial(r.serialnum, r.ieee) + [r.endpoint, r.cmdInd, r.status]
  }

  function ReadOnOffFields(r: ReadOnOff): seq<byte> {
    Serial(r.serialnum, r.ieee) + [r.endpoint, r.state]
  }

  function LevelFields(r: LevelResponse): seq<byte> {
    Serial(r.serialnum, r.ieee) + [r.endpoint, r.deviceState, r.status]
  }

  function StatusFields(ieee: word64, status: byte): seq<byte> {
    BigEndian(ieee, 8) + [status]
  }

  function FeedbackFields(del: DelDevice, result: byte): seq<byte> {
    Serial(del.serialnum, del.ieee) + [result]
  }

  function Named(s: name): seq<byte> {
    [|s|] + s
  }

  function VersionFields(d: Device, e: Endpoint): seq<byte> {
    BigEndian(e.profileId, 2) + [d.zclversion, d.applicationversion, d.stackversion, d.hwversion]
    + Named(d.manufacturername) + Named(d.modelidentifier) + Named(d.datecode) + [d.powersource]
  }

  // what is known of the device follows, and of its endpoint
  function AttrFields(a: GetDeviceAttr, d: Option<Device>, e: Option<Endpoint>): seq<byte> {
    Serial(a.serialnum, a.ieee) + [a.endpoint]
    + if d.None? then [] else BigEndian(d.value.shortaddr, 2) + if e.None? then [] else VersionFields(d.value, e.value)
  }

  // ---- the encoders

  method Bytes3(buf: array<byte>, p0: nat, a: byte, b: byte, c: byte) returns (p: nat)
    requires p0 + 3 <= buf.Length
    modifies buf
    ensures p == p0 + 3 && buf[..p] == old(buf[..p0]) + [a, b, c]
  {
    p := WriteByte(buf, p0, a);
    p := WriteByte(buf, p, b);
    p := WriteByte(buf, p, c);
  }

  method WriteSerial(buf: array<byte>, p0: nat, serialnum: word32, ieee: word64) returns (p: nat)
    requires p0 + 12 <= buf.Length
    modifies buf
    ensures p == p0 + 12 && buf[..p] == old(buf[..p0]) + Serial(serialnum, ieee)
  {
    Assoc(buf[..p0], BigEndian(serialnum, 4), BigEndian(ieee, 8));
    p := WriteDword(buf, p0, serialnum);
    p := WriteQuadword(buf, p, ieee);
  }

  method EncodeGeneralResponse(buf: array<byte>, r: Response) returns (n: nat)
    requires buf.Length >= 20
    modifies buf
    ensures n == 20 && buf[..n] == Framed(DEVICE_RESPONSE, GeneralFields(r))
  {
    var p := Start(buf, DEVICE_RESPONSE);
    ghost var start := buf[..p];
    p := WriteQuadword(buf, p, r.ieee);
    p := WriteWord(buf, p, r.clusterid);
    p := Bytes3(buf, p, r.endpoint, r.cmdInd, r.status);
    Assoc(start, BigEndian(r.ieee, 8), BigEndian(r.clusterid, 2));
    Assoc(start, BigEndian(r.ieee, 8) + BigEndian(r.clusterid, 2), [r.endpoint, r.cmdInd, r.status]);
    n := Finish(buf, p, DEVICE_RESPONSE, GeneralFields(r));
  }

  method EncodeOnOffResponse(buf: array<byte>, r: Response) returns (n: nat)
    requires buf.Length >= 22
    modifies buf
    ensures n == 22 && buf[..n] == Framed(DEVICE_ONOFF_RSP, OnOffFields(r))
  {
    var p := Start(buf, DEVICE_ONOFF_RSP);
    Assoc(buf[..p], Serial(r.serialnum, r.ieee), [r.endpoint, r.cmdInd, r.status]);
    p := WriteSerial(buf, p, r.serialnum, r.ieee);
    p := Bytes3(buf, p, r.endpoint, r.cmdInd, r.status);
    n := Finish(buf, p, DEVICE_ONOFF_RSP, OnOffFields(r));
  }

  method EncodeReadOnOffResponse(buf: array<byte>, r: ReadOnOff) returns (n: nat)
    requires buf.Length >= 21
    modifies buf
    ensures n == 21 && buf[..n] == Framed(READ_ONOFF_RSP, ReadOnOffFields(r))
  {
    var p := Start(buf, READ_ONOFF_RSP);
    ghost var start, serial := buf[..p], Serial(r.serialnum, r.ieee);
    p := WriteSerial(buf, p, r.serialnum, r.ieee);
    p := WriteByte(buf, p, r.endpoint);
    p := WriteByte(buf, p, r.state);
    assert buf[..p] == start + (serial + [r.endpoint, r.state]);
    n := Finish(buf, p, READ_ONOFF_RSP, ReadOnOffFields(r));
  }

  method EncodeLevelResponse(buf: array<byte>, r: LevelResponse) returns (n: nat)
    requires buf.Length >= 22
    modifies buf
    ensures n == 22 && buf[..n] == Framed(DEVICE_LEVEL_RSP, LevelFields(r))
  {
    var p := Start(buf, DEVICE_LEVEL_RSP);
    Assoc(buf[..p], Serial(r.serialnum, r.ieee), [r.endpoint, r.deviceState, r.status]);
    p := WriteSerial(buf, p, r.serialnum, r.ieee);
    p := Bytes3(buf, p, r.endpoint, r.deviceState, r.status);
    n := Finish(buf, p, DEVICE_LEVEL_RSP, LevelFields(r));
  }

  method EncodeWarningResponse(buf: array<byte>, r: Response) returns (n: nat)
    requires buf.Length >= 22
    modifies buf
    ensures n == 22 && buf[..n] == Framed(DEVICE_WARNING_RSP, OnOffFields(r))
  {
    var p := Start(buf, DEVICE_WARNING_RSP);
    Assoc(buf[..p], Serial(r.serialnum, r.ieee), [r.endpoint, r.cmdInd, r.status]);
    p := WriteSerial(buf, p, r.serialnum, r.ieee);
    p := Bytes3(buf, p, r.endpoint, r.cmdInd, r.status);
    n := Finish(buf, p, DEVICE_WARNING_RSP, OnOffFields(r));
  }

  method EncodeReportStatus(buf: array<byte>, ieee: word64, status: byte) returns (n: nat)
    requires buf.Length >= 16
    modifies buf
    ensures n == 16 && buf[..n] == Framed(STATUS_REPORT, StatusFields(ieee, status))
  {
    var p := Start(buf, STATUS_REPORT);
    Assoc(buf[..p], BigEndian(ieee, 8), [status]);
    p := WriteQuadword(buf, p, ieee);
    p := WriteByte(buf, p, status);
    n := Finish(buf, p, STATUS_REPORT, StatusFields(ieee, status));
  }

  method EncodeDelDeviceFeedback(buf: array<byte>, del: DelDevice, result: byte) returns (n: nat)
    requires buf.Length >= 20
    modifies buf
    ensures n == 20 && buf[..n] == Framed(DEL_DEVICE_FEEDBACK, FeedbackFields(del, result))
  {
    var p := Start(buf, DEL_DEVICE_FEEDBACK);
    Assoc(buf[..p], Serial(del.serialnum, del.ieee), [result]);
    p := WriteSerial(buf, p, del.serialnum, del.ieee);
    p := WriteByte(buf, p, result);
    n := Finish(buf, p, DEL_DEVICE_FEEDBACK, FeedbackFields(del, result));
  }

  method WriteNamed(buf: array<byte>, p0: nat, s: name) returns (p: nat)
    requires p0 + 1 + |s| <= buf.Length
    modifies buf
    ensures p == p0 + 1 + |s| && buf[..p] == old(buf[..p0]) + Named(s)
  {
    Assoc(buf[..p0], [|s|], s);
    p := WriteByte(buf, p0, |s|);
    p := Put(buf, p, s);
  }

  method WriteVersions(buf: array<byte>, p0: nat, d: Device, e: Endpoint) returns (p: nat)
    requires p0 + |VersionFields(d, e)| <= buf.Length
    modifies buf
    ensures p == p0 + |VersionFields(d, e)| && buf[..p] == old(buf[..p0]) + VersionFields(d, e)
  {
    ghost var versions := BigEndian(e.profileId, 2) + [d.zclversion, d.applicationversion, d.stackversion, d.hwversion];
    AssocFive(buf[..p0], versions, Named(d.manufacturername), Named(d.modelidentifier), Named(d.datecode),
              [d.powersource]);
    p := WriteVersionNumbers(buf, p0, d, e);
    p := WriteNamed(buf, p, d.manufacturername);
    p := WriteNamed(buf, p, d.modelidentifier);
    p := WriteNamed(buf, p, d.datecode);
    p := WriteByte(buf, p, d.powersource);
  }

  method WriteVersionNumbers(buf: array<byte>, p0: nat, d: Device, e: Endpoint) returns (p: nat)
    requires p0 + 6 <= buf.Length
    modifies buf
    ensures p == p0 + 6
    ensures buf[..p]
         == old(buf[..p0])
            + (BigEndian(e.profileId, 2) + [d.zclversion, d.applicationversion, d.stackversion, d.hwversion])
  {
    p := WriteWord(buf, p0, e.profileId);
    p := WriteByte(buf, p, d.zclversion);
    p := Bytes3(buf, p, d.applicationversion, d.stackversion, d.hwversion);
    assert [d.zclversion] + [d.applicationversion, d.stackversion, d.hwversion]
        == [d.zclversion, d.applicationversion, d.stackversion, d.hwversion];
    Assoc(old(buf[..p0]) + BigEndian(e.profileId, 2), [d.zclversion],
          [d.applicationversion, d.stackversion, d.hwversion]);
    Assoc(old(buf[..p0]), BigEndian(e.profileId, 2), [d.zclversion, d.applicationversion, d.stackversion, d.hwversion]);
  }

  // the most an attribute message takes
  const ATTR_ROOM := 797

  method EncodeDeviceAttr(buf: array<byte>, gw: Gateway, a: GetDeviceAttr)
    returns (n: nat, ghost d: Option<Device>, ghost e: Option<Endpoint>)
    requires buf.Length >= ATTR_ROOM
    modifies buf
    ensures d.Some? ==> d.value in gw.devices && d.value.ieee == a.ieee
    ensures d.None? ==> forall i :: 0 <= i < |gw.devices| ==> gw.devices[i].ieee != a.ieee
    ensures e.Some? ==> d.Some? && e.value in d.value.endpoints && e.value.endpoint == a.endpoint
    ensures d.Some? && e.None? ==> forall i :: 0 <= i < |d.value.endpoints| ==>
      d.value.endpoints[i].endpoint != a.endpoint
    ensures n == |Framed(DEVICEATTRIBUTE, AttrFields(a, d, e))| <= ATTR_ROOM
    ensures buf[..n] == Framed(DEVICEATTRIBUTE, AttrFields(a, d, e))
  {
    var p := Start(buf, DEVICEATTRIBUTE);
    ghost var start := buf[..p];
    p := WriteSerial(buf, p, a.serialnum, a.ieee);
    p := WriteByte(buf, p, a.endpoint);
    ghost var lead, more := Serial(a.serialnum, a.ieee) + [a.endpoint], [];
    Assoc(start, Serial(a.serialnum, a.ieee), [a.endpoint]);
    var device := GetDevice(gw, a.ieee);
    d, e := device, None;
    if device.Some? {
      p := WriteWord(buf, p, device.value.shortaddr);
      more := BigEndian(device.value.shortaddr, 2);
      var ep := GetEndpoint(device.value, a.endpoint);
      e := ep;
      if ep.Some? {
        Assoc(start + lead, more, VersionFields(device.value, ep.value));
        p := WriteVersions(buf, p, device.value, ep.value);
        more := more + VersionFields(device.value, ep.value);
      }
    }
    Assoc(start, lead, more);
    n := Finish(buf, p, DEVICEATTRIBUTE, AttrFields(a, d, e));
  }

  // ---- the parsers

  method ParseOnOff(buf: seq<byte>) returns (serialnum: nat, ieee: nat, endpoint: byte, onoff: byte)
    requires |buf| >= 19
    ensures serialnum == Value(buf[5..9]) && ieee == Value(buf[9..17]) && endpoint == buf[17] && onoff == buf[18]
  {
    var p := 5;
    serialnum, p := ReadDword(buf, p);
    ieee, p := ReadQuadword(buf, p);
    endpoint, p := ReadByte(buf, p);
    onoff, p := ReadByte(buf, p);
  }

  method ParseDelDevice(buf: seq<byte>) returns (serialnum: nat, ieee: nat)
    requires |buf| >= 17
    ensures serialnum == Value(buf[5..9]) && ieee == Value(buf[9..17])
  {
    var p := 5;
    serialnum, p := ReadDword(buf, p);
    ieee, p := ReadQuadword(buf, p);
  }

  method ParseGetDeviceAttr(buf: seq<byte>) returns (serialnum: nat, ieee: nat, endpoint: byte)
    requires |buf| >= 18
    ensures serialnum == Value(buf[5..9]) && ieee == Value(buf[9..17]) && endpoint == buf[17]
  {
    var p := 5;
    serialnum, p := ReadDword(buf, p);
    ieee, p := ReadQuadword(buf, p);
    endpoint, p := ReadByte(buf, p);
  }

  // ---- the parsers find what the encoders wrote

  lemma SerialIsFound(id: word16, serialnum: word32, ieee: word64, rest: seq<byte>)
    ensures var f := Framed(id, Serial(serialnum, ieee) + rest);
      && |f| == 19 + |rest| && Value(f[5..9]) == serialnum && Value(f[9..17]) == ieee && f[17..17 + |rest|] == rest
  {
    Ranges();
    var fields := Serial(serialnum, ieee) + rest;
    var f := Framed(id, fields);
    assert f[5..5 + |fields|] == fields;
    assert f[5..9] == fields[..4] == BigEndian(serialnum, 4);
    assert f[9..17] == fields[4..12] == BigEndian(ieee, 8);
    assert f[17..17 + |rest|] == fields[12..] == rest;
    ReadBack(f, 5, serialnum, 4);
    ReadBack(f, 9, ieee, 8);
  }

  lemma OnOffRoundTrip(id: word16, serialnum: word32, ieee: word64, endpoint: byte, onoff: byte, rest: seq<byte>)
    ensures var f := Framed(id, Serial(serialnum, ieee) + ([endpoint, onoff] + rest));
      && |f| >= 19 && Value(f[5..9]) == serialnum && Value(f[9..17]) == ieee && f[17] == endpoint && f[18] == onoff
  {
    var tail: seq<byte> := [endpoint, onoff] + rest;
    var f := Framed(id, Serial(serialnum, ieee) + tail);
    SerialIsFound(id, serialnum, ieee, tail);
    assert f[17] == f[17..17 + |tail|][0] && f[18] == f[17..17 + |tail|][1];
  }

  // the on/off, delete and attribute parsers on the messages that answer their commands
  lemma AnswersAreParsed(r: Response, o: ReadOnOff, del: DelDevice, result: byte)
    ensures var f := Framed(DEVICE_ONOFF_RSP, OnOffFields(r));
      && |f| >= 19 && Value(f[5..9]) == r.serialnum && Value(f[9..17]) == r.ieee
      && f[17] == r.endpoint && f[18] == r.cmdInd
    ensures var f := Framed(READ_ONOFF_RSP, ReadOnOffFields(o));
      && |f| >= 19 && Value(f[5..9]) == o.serialnum && Value(f[9..17]) == o.ieee
      && f[17] == o.endpoint && f[18] == o.state
    ensures var f := Framed(DEL_DEVICE_FEEDBACK, FeedbackFields(del, result));
      && |f| >= 17 && Value(f[5..9]) == del.serialnum && Value(f[9..17]) == del.ieee
  {
    OnOffRoundTrip(DEVICE_ONOFF_RSP, r.serialnum, r.ieee, r.endpoint, r.cmdInd, [r.status]);
    OnOffRoundTrip(READ_ONOFF_RSP, o.serialnum, o.ieee, o.endpoint, o.state, []);
    SerialIsFound(DEL_DEVICE_FEEDBACK, del.serialnum, del.ieee, [result]);
    assert [r.endpoint, r.cmdInd] + [r.status] == [r.endpoint, r.cmdInd, r.status];
    assert [o.endpoint, o.state] + [] == [o.endpoint, o.state];
  }

  lemma AttrIsParsed(a: GetDeviceAttr, d: Option<Device>, e: Option<Endpoint>)
    ensures var f := Framed(DEVICEATTRIBUTE, AttrFields(a, d, e));
      && |f| >= 18 && Value(f[5..9]) == a.serialnum && Value(f[9..17]) == a.ieee && f[17] == a.endpoint
  {
    var more: seq<byte> :=
      if d.None? then [] else BigEndian(d.value.shortaddr, 2) + if e.None? then [] else VersionFields(d.value, e.value);
    var tail := [a.endpoint] + more;
    Assoc(Serial(a.serialnum, a.ieee), [a.endpoint], more);
    SerialIsFound(DEVICEATTRIBUTE, a.serialnum, a.ieee, tail);
    var f := Framed(DEVICEATTRIBUTE, AttrFields(a, d, e));
    assert f[17] == f[17..17 + |tail|][0];
  }

  // ---- each message and its fields, by their places

  datatype Message =
    | General(r: Response)
    | OnOff(r: Response)
    | Reading(o: ReadOnOff)
    | Level(l: LevelResponse)
    | Warning(r: Response)
    | Status(ieee: word64, status: byte)
    | Feedback(del: DelDevice, result: byte)
    | Attr(a: GetDeviceAttr, d: Option<Device>, e: Option<Endpoint>)

  function Encoded(m: Message): seq<byte> {
    match m
    case General(r) => Framed(DEVICE_RESPONSE, GeneralFields(r))
    case OnOff(r) => Framed(DEVICE_ONOFF_RSP, OnOffFields(r))
    case Reading(o) => Framed(READ_ONOFF_RSP, ReadOnOffFields(o))
    case Level(l) => Framed(DEVICE_LEVEL_RSP, LevelFields(l))
    case Warning(r) => Framed(DEVICE_WARNING_RSP, OnOffFields(r))
    case Status(ieee, status) => Framed(STATUS_REPORT, StatusFields(ieee, status))
    case Feedback(del, result) => Framed(DEL_DEVICE_FEEDBACK, FeedbackFields(del, result))
    case Attr(a, d, e) => Framed(DEVICEATTRIBUTE, AttrFields(a, d, e))
  }

  // its id, as the other side knows it
  function IdOf(m: Message): word16 {
    match m
    case General(_) => 0x0013
    case OnOff(_) => 0x0010
    case Reading(_) => 0x0016
    case Level(_) => 0x0011
    case Warning(_) => 0x000D
    case Status(_, _) => 0x0015
    case Feedback(_, _) => 0x000A
    case Attr(_, _, _) => 0x000B
  }

  predicate SerialAt(f: seq<byte>, serialnum: nat, ieee: nat) {
    |f| >= 17 && Value(f[5..9]) == serialnum && Value(f[9..17]) == ieee
  }

  predicate IeeeAt(f: seq<byte>, ieee: nat) {
    |f| >= 13 && Value(f[5..13]) == ieee
  }

  // these bytes stand from p to the checksum
  predicate LastAt(f: seq<byte>, p: nat, t: seq<byte>) {
    |f| == p + |t| + 2 && f[p..p + |t|] == t
  }

  // a length and as many bytes
  predicate NameAt(f: seq<byte>, p: nat, s: seq<byte>) {
    p + 1 + |s| <= |f| && f[p] == |s| && f[p + 1..p + 1 + |s|] == s
  }

  // the endpoint, and what is known of the device and the endpoint
  predicate AttrAt(f: seq<byte>, endpoint: byte, d: Option<Device>, e: Option<Endpoint>) {
    && |f| >= 20 && f[17] == endpoint
    && (d.None? ==> |f| == 20)
    && (d.Some? ==> |f| >= 22 && Value(f[18..20]) == d.value.shortaddr && (e.None? ==> |f| == 22))
    && (d.Some? && e.Some? ==> VersionsAt(f, d.value, e.value))
  }

  predicate VersionsAt(f: seq<byte>, d: Device, e: Endpoint) {
    && |f| >= 26 && Value(f[20..22]) == e.profileId
    && f[22..26] == [d.zclversion, d.applicationversion, d.stackversion, d.hwversion]
    && NamesAt(f, 26, d.manufacturername, d.modelidentifier, d.datecode, d.powersource)
  }

  // three names and a byte
  predicate NamesAt(f: seq<byte>, p: nat, a: seq<byte>, b: seq<byte>, c: seq<byte>, last: byte) {
    && NameAt(f, p, a) && NameAt(f, p + 1 + |a|, b) && NameAt(f, p + 2 + |a| + |b|, c)
    && LastAt(f, p + 3 + |a| + |b| + |c|, [last])
  }

  // the fields of a message stand at fixed places, as the other side reads them
  predicate FoundIn(m: Message, f: seq<byte>) {
    match m
    case General(r) =>
      && IeeeAt(f, r.ieee) && |f| >= 15 && Value(f[13..15]) == r.clusterid
      && LastAt(f, 15, [r.endpoint, r.cmdInd, r.status])
    case OnOff(r) => SerialAt(f, r.serialnum, r.ieee) && LastAt(f, 17, [r.endpoint, r.cmdInd, r.status])
    case Reading(o) => SerialAt(f, o.serialnum, o.ieee) && LastAt(f, 17, [o.endpoint, o.state])
    case Level(l) => SerialAt(f, l.serialnum, l.ieee) && LastAt(f, 17, [l.endpoint, l.deviceState, l.status])
    case Warning(r) => SerialAt(f, r.serialnum, r.ieee) && LastAt(f, 17, [r.endpoint, r.cmdInd, r.status])
    case Status(ieee, status) => IeeeAt(f, ieee) && LastAt(f, 13, [status])
    case Feedback(del, result) => SerialAt(f, del.serialnum, del.ieee) && LastAt(f, 17, [result])
    case Attr(a, d, e) => SerialAt(f, a.serialnum, a.ieee) && AttrAt(f, a.endpoint, d, e)
  }

  // what stands in a stretch of a message is there piece by piece
  lemma Pieces(f: seq<byte>, p: nat, q: nat, a: seq<byte>, b: seq<byte>)
    requires p <= q <= |f| && f[p..q] == a + b
    ensures p + |a| <= q && f[p..p + |a|] == a && f[p + |a|..q] == b
  {
    assert f[p..p + |a|] == f[p..q][..|a|] && f[p + |a|..q] == f[p..q][|a|..];
  }

  lemma WordFound(f: seq<byte>, p: nat, x: word16)
    requires p + 2 <= |f| && f[p..p + 2] == BigEndian(x, 2)
    ensures Value(f[p..p + 2]) == x
  {
    Ranges();
    ReadBack(f, p, x, 2);
  }

  lemma SerialTail(id: word16, serialnum: word32, ieee: word64, tail: seq<byte>, f: seq<byte>)
    requires f == Framed(id, Serial(serialnum, ieee) + tail)
    ensures SerialAt(f, serialnum, ieee) && LastAt(f, 17, tail)
  {
    SerialIsFound(id, serialnum, ieee, tail);
  }

  lemma IeeeTail(id: word16, ieee: word64, tail: seq<byte>, f: seq<byte>)
    requires f == Framed(id, BigEndian(ieee, 8) + tail)
    ensures IeeeAt(f, ieee) && LastAt(f, 13, tail)
  {
    Ranges();
    assert f[5..13 + |tail|] == BigEndian(ieee, 8) + tail;
    Pieces(f, 5, 13 + |tail|, BigEndian(ieee, 8), tail);
    ReadBack(f, 5, ieee, 8);
  }

  lemma GeneralFound(r: Response)
    ensures FoundIn(General(r), Encoded(General(r)))
  {
    var f, last := Encoded(General(r)), [r.endpoint, r.cmdInd, r.status];
    Assoc(BigEndian(r.ieee, 8), BigEndian(r.clusterid, 2), last);
    IeeeTail(DEVICE_RESPONSE, r.ieee, BigEndian(r.clusterid, 2) + last, f);
    Pieces(f, 13, 18, BigEndian(r.clusterid, 2), last);
    WordFound(f, 13, r.clusterid);
  }

  lemma AttrFound(a: GetDeviceAttr, d: Option<Device>, e: Option<Endpoint>)
    ensures FoundIn(Attr(a, d, e), Encoded(Attr(a, d, e)))
  {
    var f := Encoded(Attr(a, d, e));
    var known: seq<byte> := if d.Some? && e.Some? then VersionFields(d.value, e.value) else [];
    var more: seq<byte> := if d.None? then [] else BigEndian(d.value.shortaddr, 2) + known;
    Assoc(Serial(a.serialnum, a.ieee), [a.endpoint], more);
    SerialTail(DEVICEATTRIBUTE, a.serialnum, a.ieee, [a.endpoint] + more, f);
    EndpointFound(f, a.endpoint, more);
    if d.Some? {
      AddressFound(f, d.value.shortaddr, known);
      if e.Some? { VersionsFound(f, d.value, e.value); }
    }
  }

  lemma EndpointFound(f: seq<byte>, endpoint: byte, more: seq<byte>)
    requires LastAt(f, 17, [endpoint] + more)
    ensures f[17] == endpoint && LastAt(f, 18, more)
  {
    Pieces(f, 17, 18 + |more|, [endpoint], more);
    assert f[17] == f[17..18][0];
  }

  lemma AddressFound(f: seq<byte>, shortaddr: word16, known: seq<byte>)
    requires LastAt(f, 18, BigEndian(shortaddr, 2) + known)
    ensures Value(f[18..20]) == shortaddr && LastAt(f, 20, known)
  {
    Pieces(f, 18, 20 + |known|, BigEndian(shortaddr, 2), known);
    WordFound(f, 18, shortaddr);
  }

  lemma VersionsFound(f: seq<byte>, d: Device, e: Endpoint)
    requires LastAt(f, 20, VersionFields(d, e))
    ensures VersionsAt(f, d, e)
  {
    var numbers := [d.zclversion, d.applicationversion, d.stackversion, d.hwversion];
    var m, i, c := Named(d.manufacturername), Named(d.modelidentifier), Named(d.datecode);
    var names := m + (i + (c + [d.powersource]));
    NestFive(BigEndian(e.profileId, 2), numbers, m, i, c, [d.powersource]);
    Pieces(f, 20, |f| - 2, BigEndian(e.profileId, 2), numbers + names);
    Pieces(f, 22, |f| - 2, numbers, names);
    WordFound(f, 20, e.profileId);
    NamesFound(f, 26, d.manufacturername, d.modelidentifier, d.datecode, d.powersource);
  }

  lemma NamesFound(f: seq<byte>, p: nat, a: name, b: name, c: name, last: byte)
    requires LastAt(f, p, Named(a) + (Named(b) + (Named(c) + [last])))
    ensures NamesAt(f, p, a, b, c, last)
  {
    NamedFound(f, p, |f| - 2, a, Named(b) + (Named(c) + [last]));
    NamedFound(f, p + 1 + |a|, |f| - 2, b, Named(c) + [last]);
    NamedFound(f, p + 2 + |a| + |b|, |f| - 2, c, [last]);
  }

  lemma NamedFound(f: seq<byte>, p: nat, q: nat, s: name, rest: seq<byte>)
    requires p <= q <= |f| && f[p..q] == Named(s) + rest
    ensures p + 1 + |s| <= q && NameAt(f, p, s) && f[p + 1 + |s|..q] == rest
  {
    Pieces(f, p, q, Named(s), rest);
    Pieces(f, p, p + 1 + |s|, [|s|], s);
    assert f[p] == f[p..p + 1][0];
  }

  // every field of every message is found at its place
  lemma MessagesAreRead(m: Message)
    ensures FoundIn(m, Encoded(m))
  {
    var f := Encoded(m);
    match m
    case General(r) => GeneralFound(r);
    case OnOff(r) => SerialTail(DEVICE_ONOFF_RSP, r.serialnum, r.ieee, [r.endpoint, r.cmdInd, r.status], f);
    case Reading(o) => SerialTail(READ_ONOFF_RSP, o.serialnum, o.ieee, [o.endpoint, o.state], f);
    case Level(l) => SerialTail(DEVICE_LEVEL_RSP, l.serialnum, l.ieee, [l.endpoint, l.deviceState, l.status], f);
    case Warning(r) => SerialTail(DEVICE_WARNING_RSP, r.serialnum, r.ieee, [r.endpoint, r.cmdInd, r.status], f);
    case Status(ieee, status) => IeeeTail(STATUS_REPORT, ieee, [status], f);
    case Feedback(del, result) => SerialTail(DEL_DEVICE_FEEDBACK, del.serialnum, del.ieee, [result], f);
    case Attr(a, d, e) => AttrFound(a, d, e);
  }

  // ---- the scanner takes every message

  lemma FieldsOf(m: Message) returns (fields: seq<byte>)
    ensures 1 <= |fields| <= ATTR_ROOM - 7 && Encoded(m) == Framed(IdOf(m), fields)
  {
    fields := match m
      case General(r) => GeneralFields(r)
      case OnOff(r) => OnOffFields(r)
      case Reading(o) => ReadOnOffFields(o)
      case Level(l) => LevelFields(l)
      case Warning(r) => OnOffFields(r)
      case Status(ieee, status) => StatusFields(ieee, status)
      case Feedback(del, result) => FeedbackFields(del, result)
      case Attr(a, d, e) => AttrFields(a, d, e);
  }

  // whatever protocol_check reports of such a message alone in a FIFO is its length and its id,
  // which the receive loop does not take for one of its signals
  lemma MessagesAreAccepted(m: Message, idIn: nat, len: nat, found: nat)
    requires Reports(Pending(Encoded(m)), idIn, len, found)
    ensures Pending(Encoded(m)) == Encoded(m) && |Encoded(m)| <= Book.FIFO_SIZE
    ensures len == |Encoded(m)| && found == IdOf(m) && !Mistakable(found)
  {
    var fields := FieldsOf(m);
    ScannerAccepts(IdOf(m), fields, idIn, len, found);
  }
}
