// A decoder for the login message, written from the layout of its fields alone.
module LoginDecoder {
  import opened Arithmetic
  import opened Bytes
  import opened ByteBuffer
  import opened Frames
  import opened Framing
  import opened Gateway
  import opened Login
  import opened Sequences

  datatype EndpointRecord =
    | Zone(endpoint: byte, zonetype: nat)
    | Switch(endpoint: byte, deviceId: nat, state: byte)
    | Other(endpoint: byte, deviceId: nat)

  datatype DeviceRecord = DeviceRecord(ieee: nat, name: seq<byte>, endpoints: seq<EndpointRecord>)

  datatype LoginRecord = LoginRecord(
    id: nat, name: seq<byte>, boxversion: byte, protocolversion: byte, devices: seq<DeviceRecord>)

  datatype Read<T> = Bad | Read(value: T, rest: seq<byte>)

  // ---- decoding

  function TakeBytes(s: seq<byte>, n: nat): Read<seq<byte>> {
    if |s| < n then Bad else Read(s[..n], s[n..])
  }

  function TakeByte(s: seq<byte>): Read<byte> {
    if s == [] then Bad else Read(s[0], s[1..])
  }

  function TakeNumber(s: seq<byte>, n: nat): Read<nat> {
    if |s| < n then Bad else Read(Value(s[..n]), s[n..])
  }

  function DecodeEndpoint(s: seq<byte>): Read<EndpointRecord> {
    match TakeByte(s)
    case Bad => Bad
    case Read(endpoint, s1) =>
      match TakeNumber(s1, 2)
      case Bad => Bad
      case Read(deviceId, s2) =>
        if deviceId == 0x0402 then
          match TakeNumber(s2, 2)
          case Bad => Bad
          case Read(zonetype, s3) => Read(Zone(endpoint, zonetype), s3)
        else if deviceId == 0x0009 || deviceId == 0x0200 then
          match TakeByte(s2)
          case Bad => Bad
          case Read(state, s3) => Read(Switch(endpoint, deviceId, state), s3)
        else Read(Other(endpoint, deviceId), s2)
  }

  function DecodeEndpoints(s: seq<byte>, n: nat): Read<seq<EndpointRecord>>
    decreases n
  {
    if n == 0 then Read([], s)
    else
      match DecodeEndpoint(s)
      case Bad => Bad
      case Read(e, s1) =>
        match DecodeEndpoints(s1, n - 1)
        case Bad => Bad
        case Read(es, s2) => Read([e] + es, s2)
  }

  // a length and as many bytes
  function DecodeName(s: seq<byte>): Read<seq<byte>> {
    match TakeByte(s)
    case Bad => Bad
    case Read(n, s1) => TakeBytes(s1, n)
  }

  function DecodeDevice(s: seq<byte>): Read<DeviceRecord> {
    match TakeNumber(s, 8)
    case Bad => Bad
    case Read(ieee, s1) =>
      match DecodeName(s1)
      case Bad => Bad
      case Read(name, s2) =>
        match DecodeEndpointList(s2)
        case Bad => Bad
        case Read(es, s3) => Read(DeviceRecord(ieee, name, es), s3)
  }

  function DecodeEndpointList(s: seq<byte>): Read<seq<EndpointRecord>> {
    match TakeByte(s)
    case Bad => Bad
    case Read(n, s1) => DecodeEndpoints(s1, n)
  }

  function DecodeDevices(s: seq<byte>, n: nat): Read<seq<DeviceRecord>>
    decreases n
  {
    if n == 0 then Read([], s)
    else
      match DecodeDevice(s)
      case Bad => Bad
      case Read(d, s1) =>
        match DecodeDevices(s1, n - 1)
        case Bad => Bad
        case Read(ds, s2) => Read([d] + ds, s2)
  }

  function DecodeDeviceList(s: seq<byte>): Read<seq<DeviceRecord>> {
    match TakeNumber(s, 2)
    case Bad => Bad
    case Read(n, s1) => DecodeDevices(s1, n)
  }

  function DecodeFields(s: seq<byte>): Read<LoginRecord> {
    match TakeNumber(s, 6)
    case Bad => Bad
    case Read(id, s1) =>
      match DecodeName(s1)
      case Bad => Bad
      case Read(name, s2) =>
        match TakeBytes(s2, 2)
        case Bad => Bad
        case Read(versions, s3) =>
          match DecodeDeviceList(s3)
          case Bad => Bad
          case Read(devices, s4) => Read(LoginRecord(id, name, versions[0], versions[1], devices), s4)
  }

  // a whole message, of the right length, checksum and id
  function DecodeLogin(f: seq<byte>): Read<LoginRecord> {
    if |f| < 7 || f[0] != 0xCE || f[|f| - 1] != 0xCE || Value(f[1..3]) != |f| || Value(f[3..5]) != 1
       || f[|f| - 2] != Checksum(f[..|f| - 2])
    then Bad
    else DecodeFields(f[5..|f| - 2])
  }

  // ---- what is to be found

  function EndpointView(e: Endpoint): EndpointRecord {
    if e.deviceId == 0x0402 then Zone(e.endpoint, e.zonetype)
    else if e.deviceId == 0x0009 || e.deviceId == 0x0200 then Switch(e.endpoint, e.deviceId, e.state)
    else Other(e.endpoint, e.deviceId)
  }

  function EndpointsView(es: seq<Endpoint>): (v: seq<EndpointRecord>)
    ensures |v| == |es|
  {
    if es == [] then [] else [EndpointView(es[0])] + EndpointsView(es[1..])
  }

  function DeviceView(d: Device): DeviceRecord {
    DeviceRecord(d.ieee, d.devicename, EndpointsView(d.endpoints))
  }

  function DevicesView(ds: seq<Device>): (v: seq<DeviceRecord>)
    ensures |v| == |ds|
  {
    if ds == [] then [] else [DeviceView(ds[0])] + DevicesView(ds[1..])
  }

  function LoginView(gw: Gateway): LoginRecord {
    LoginRecord(gw.id % WORD48, gw.name, gw.boxversion, gw.protocolversion, DevicesView(Active(gw.devices)))
  }

  // every endpoint count fits its byte
  predicate CountsFit(ds: seq<Device>) {
    ds == [] || (|ds[0].endpoints| <= 255 && CountsFit(ds[1..]))
  }

  // ---- the decoder finds it

  lemma TakesBytes(t: seq<byte>, rest: seq<byte>)
    ensures TakeBytes(t + rest, |t|) == Read(t, rest)
  {
    assert (t + rest)[..|t|] == t && (t + rest)[|t|..] == rest;
  }

  lemma TakesByte(c: byte, rest: seq<byte>)
    ensures TakeByte([c] + rest) == Read(c, rest)
  {
    assert ([c] + rest)[1..] == rest;
  }

  lemma TakesNumber(x: nat, n: nat, rest: seq<byte>)
    ensures TakeNumber(BigEndian(x, n) + rest, n) == Read(x % Pow256(n), rest)
  {
    TakesBytes(BigEndian(x, n), rest);
    WrittenIsRead(x, n);
  }

  lemma TakesWhole(x: nat, n: nat, rest: seq<byte>)
    requires x < Pow256(n)
    ensures TakeNumber(BigEndian(x, n) + rest, n) == Read(x, rest)
  {
    TakesNumber(x, n, rest);
    DivModUnique(x, Pow256(n), 0, x);
  }

  lemma TakesId(x: nat, rest: seq<byte>)
    ensures TakeNumber(BigEndian(x, 6) + rest, 6) == Read(x % WORD48, rest)
  {
    Ranges();
    TakesNumber(x, 6, rest);
  }

  lemma TakesIeee(x: word64, rest: seq<byte>)
    ensures TakeNumber(BigEndian(x, 8) + rest, 8) == Read(x, rest)
  {
    Ranges();
    TakesWhole(x, 8, rest);
  }

  lemma EndpointDecodes(e: Endpoint, rest: seq<byte>)
    ensures DecodeEndpoint(EndpointBytes(e) + rest) == Read(EndpointView(e), rest)
  {
    Ranges();
    var tail :=
      if e.deviceId == IAS_ZONE then BigEndian(e.zonetype, 2)
      else if e.deviceId == MAINS_POWER_OUTLET || e.deviceId == SHADE then [e.state]
      else [];
    Assoc([e.endpoint] + BigEndian(e.deviceId, 2), tail, rest);
    Assoc([e.endpoint], BigEndian(e.deviceId, 2), tail + rest);
    TakesByte(e.endpoint, BigEndian(e.deviceId, 2) + (tail + rest));
    TakesWhole(e.deviceId, 2, tail + rest);
    if e.deviceId == IAS_ZONE {
      TakesWhole(e.zonetype, 2, rest);
    } else if e.deviceId == MAINS_POWER_OUTLET || e.deviceId == SHADE {
      TakesByte(e.state, rest);
    } else {
      assert [] + rest == rest;
    }
  }

  lemma {:induction false} EndpointsDecode(es: seq<Endpoint>, rest: seq<byte>)
    ensures DecodeEndpoints(EndpointsBytes(es) + rest, |es|) == Read(EndpointsView(es), rest)
  {
    if es == [] {
      assert [] + rest == rest;
    } else {
      var more := EndpointsBytes(es[1..]);
      Assoc(EndpointBytes(es[0]), more, rest);
      EndpointDecodes(es[0], more + rest);
      EndpointsDecode(es[1..], rest);
    }
  }

  lemma NameDecodes(name: seq<byte>, rest: seq<byte>)
    requires |name| <= 255
    ensures DecodeName([|name|] + (name + rest)) == Read(name, rest)
  {
    TakesByte(|name|, name + rest);
    TakesBytes(name, rest);
  }

  lemma DeviceDecodes(d: Device, rest: seq<byte>)
    requires |d.endpoints| <= 255
    ensures DecodeDevice(DeviceBytes(d) + rest) == Read(DeviceView(d), rest)
  {
    var n: byte := |d.endpoints| % 256;
    NestFive(BigEndian(d.ieee, 8), [|d.devicename|], d.devicename, [n], EndpointsBytes(d.endpoints), rest);
    EndpointListDecodes(d.endpoints, rest);
    DeviceDecodesFrom(d.ieee, d.devicename, [n] + (EndpointsBytes(d.endpoints) + rest), EndpointsView(d.endpoints),
                      rest);
  }

  lemma DeviceDecodesFrom(ieee: word64, devicename: name, list: seq<byte>, es: seq<EndpointRecord>, rest: seq<byte>)
    requires DecodeEndpointList(list) == Read(es, rest)
    ensures DecodeDevice(BigEndian(ieee, 8) + ([|devicename|] + (devicename + list)))
         == Read(DeviceRecord(ieee, devicename, es), rest)
  {
    TakesIeee(ieee, [|devicename|] + (devicename + list));
    NameDecodes(devicename, list);
  }

  lemma EndpointListDecodes(es: seq<Endpoint>, rest: seq<byte>)
    requires |es| <= 255
    ensures DecodeEndpointList([|es| % 256] + (EndpointsBytes(es) + rest)) == Read(EndpointsView(es), rest)
  {
    ModSmall(|es|, 256);
    TakesByte(|es|, EndpointsBytes(es) + rest);
    EndpointsDecode(es, rest);
  }

  lemma {:induction false} DevicesDecode(ds: seq<Device>, rest: seq<byte>)
    requires CountsFit(ds)
    ensures DecodeDevices(DevicesBytes(ds) + rest, |ds|) == Read(DevicesView(ds), rest)
  {
    if ds == [] {
      assert [] + rest == rest;
    } else {
      var more := DevicesBytes(ds[1..]);
      Assoc(DeviceBytes(ds[0]), more, rest);
      DeviceDecodes(ds[0], more + rest);
      DevicesDecode(ds[1..], rest);
    }
  }

  lemma TakesCount(n: nat, rest: seq<byte>)
    requires n < WORD16
    ensures TakeNumber(BigEndian(n % WORD16, 2) + rest, 2) == Read(n, rest)
  {
    Ranges();
    ModSmall(n, WORD16);
    TakesWhole(n, 2, rest);
  }

  lemma DeviceListDecodes(ds: seq<Device>)
    requires CountsFit(ds) && |ds| < WORD16
    ensures DecodeDeviceList(BigEndian(|ds| % WORD16, 2) + DevicesBytes(ds)) == Read(DevicesView(ds), [])
  {
    TakesCount(|ds|, DevicesBytes(ds));
    AllDevicesDecode(ds);
    CountThenDevices(BigEndian(|ds| % WORD16, 2) + DevicesBytes(ds), |ds|, DevicesBytes(ds), DevicesView(ds));
  }

  lemma AllDevicesDecode(ds: seq<Device>)
    requires CountsFit(ds)
    ensures DecodeDevices(DevicesBytes(ds), |ds|) == Read(DevicesView(ds), [])
  {
    DevicesDecode(ds, []);
    assert DevicesBytes(ds) + [] == DevicesBytes(ds);
  }

  lemma CountThenDevices(s: seq<byte>, n: nat, rest: seq<byte>, devices: seq<DeviceRecord>)
    requires TakeNumber(s, 2) == Read(n, rest) && DecodeDevices(rest, n) == Read(devices, [])
    ensures DecodeDeviceList(s) == Read(devices, [])
  {
  }

  lemma GatewayDecodes(gw: Gateway, list: seq<byte>, devices: seq<DeviceRecord>)
    requires DecodeDeviceList(list) == Read(devices, [])
    ensures DecodeFields(GatewayBytes(gw) + list)
         == Read(LoginRecord(gw.id % WORD48, gw.name, gw.boxversion, gw.protocolversion, devices), [])
  {
    var versions: seq<byte> := [gw.boxversion, gw.protocolversion];
    NestFive(BigEndian(gw.id, 6), [|gw.name|], gw.name, [gw.boxversion], [gw.protocolversion], list);
    assert [gw.boxversion] + ([gw.protocolversion] + list) == versions + list;
    TakesId(gw.id, [|gw.name|] + (gw.name + (versions + list)));
    NameDecodes(gw.name, versions + list);
    TakesBytes(versions, list);
  }

  lemma FieldsDecode(gw: Gateway)
    requires CountsFit(Active(gw.devices)) && |Active(gw.devices)| < WORD16
    ensures DecodeFields(LoginFields(gw)) == Read(LoginView(gw), [])
  {
    var ds := Active(gw.devices);
    Assoc(GatewayBytes(gw), BigEndian(|ds| % WORD16, 2), DevicesBytes(ds));
    DeviceListDecodes(ds);
    GatewayDecodes(gw, BigEndian(|ds| % WORD16, 2) + DevicesBytes(ds), DevicesView(ds));
  }

  // a decoder recovers the gateway and every active device from the login message
  lemma LoginDecodes(gw: Gateway)
    requires CountsFit(Active(gw.devices)) && |Active(gw.devices)| < WORD16
    requires |Framed(LOGIN, LoginFields(gw))| < WORD16
    ensures DecodeLogin(Framed(LOGIN, LoginFields(gw))) == Read(LoginView(gw), [])
  {
    var fields := LoginFields(gw);
    var f, h := Framed(LOGIN, fields), Head(LOGIN, fields);
    FieldsDecode(gw);
    EnvelopeReads(LOGIN, fields);
  }

  lemma {:induction false} ViewAt(ds: seq<Device>, k: nat)
    requires k < |ds|
    ensures DevicesView(ds)[k] == DeviceView(ds[k])
  {
    if k > 0 { ViewAt(ds[1..], k - 1); }
  }

  // the devices it recovers are those whose status has bits 0 and 10 clear, in the order of the list
  lemma LoginLists(gw: Gateway) returns (at: seq<nat>)
    requires CountsFit(Active(gw.devices)) && |Active(gw.devices)| < WORD16
    requires |Framed(LOGIN, LoginFields(gw))| < WORD16
    ensures Picks(at, gw.devices)
    ensures var r := DecodeLogin(Framed(LOGIN, LoginFields(gw)));
      && r.Read? && |r.value.devices| == |at|
      && forall k :: 0 <= k < |at| ==> r.value.devices[k] == DeviceView(gw.devices[at[k]])
  {
    LoginDecodes(gw);
    at := ActiveAt(gw.devices);
    forall k | 0 <= k < |at|
      ensures DevicesView(Active(gw.devices))[k] == DeviceView(gw.devices[at[k]])
    {
      ViewAt(Active(gw.devices), k);
    }
  }

  // ---- and only then: counts and length are written modulo the range of their fields

  predicate RecordsFit(ds: seq<DeviceRecord>) {
    ds == [] || (|ds[0].endpoints| <= 255 && RecordsFit(ds[1..]))
  }

  lemma {:induction false} EndpointsCounted(s: seq<byte>, n: nat)
    requires DecodeEndpoints(s, n).Read?
    ensures |DecodeEndpoints(s, n).value| == n
    decreases n
  {
    if n > 0 {
      EndpointsCounted(DecodeEndpoint(s).rest, n - 1);
    }
  }

  lemma EndpointListFits(s: seq<byte>)
    requires DecodeEndpointList(s).Read?
    ensures |DecodeEndpointList(s).value| <= 255
  {
    var r := TakeByte(s);
    EndpointsCounted(r.rest, r.value);
  }

  lemma DeviceFits(s: seq<byte>)
    requires DecodeDevice(s).Read?
    ensures |DecodeDevice(s).value.endpoints| <= 255
  {
    EndpointListFits(DecodeName(TakeNumber(s, 8).rest).rest);
  }

  lemma {:induction false} DevicesCounted(s: seq<byte>, n: nat)
    requires DecodeDevices(s, n).Read?
    ensures |DecodeDevices(s, n).value| == n && RecordsFit(DecodeDevices(s, n).value)
    decreases n
  {
    if n > 0 {
      var r := DecodeDevice(s);
      DeviceFits(s);
      DevicesCounted(r.rest, n - 1);
      var ds := DecodeDevices(r.rest, n - 1).value;
      assert ([r.value] + ds)[1..] == ds;
    }
  }

  lemma DeviceListFits(s: seq<byte>)
    requires DecodeDeviceList(s).Read?
    ensures |DecodeDeviceList(s).value| < WORD16 && RecordsFit(DecodeDeviceList(s).value)
  {
    var r := TakeNumber(s, 2);
    WordIsSmall(s[..2]);
    DevicesCounted(r.rest, r.value);
  }

  lemma WordIsSmall(s: seq<byte>)
    requires |s| == 2
    ensures Value(s) < WORD16
  {
    assert Value(s) == Value(s[..1]) * 256 + s[1];
    assert Value(s[..1]) == Value([]) * 256 + s[0];
  }

  lemma {:induction false} ViewFits(ds: seq<Device>)
    requires RecordsFit(DevicesView(ds))
    ensures CountsFit(ds)
  {
    if ds != [] {
      assert DevicesView(ds)[1..] == DevicesView(ds[1..]);
      ViewFits(ds[1..]);
    }
  }

  lemma FieldsFit(s: seq<byte>)
    requires DecodeFields(s).Read?
    ensures |DecodeFields(s).value.devices| < WORD16 && RecordsFit(DecodeFields(s).value.devices)
  {
    DeviceListFits(TakeBytes(DecodeName(TakeNumber(s, 6).rest).rest, 2).rest);
  }

  lemma LoginDecodesExactlyWhenItFits(gw: Gateway)
    ensures DecodeLogin(Framed(LOGIN, LoginFields(gw))) == Read(LoginView(gw), [])
       <==> CountsFit(Active(gw.devices)) && |Active(gw.devices)| < WORD16 && |Framed(LOGIN, LoginFields(gw))| < WORD16
  {
    var f := Framed(LOGIN, LoginFields(gw));
    if DecodeLogin(f) == Read(LoginView(gw), []) {
      WordIsSmall(f[1..3]);
      FieldsFit(f[5..|f| - 2]);
      ViewFits(Active(gw.devices));
    }
    if CountsFit(Active(gw.devices)) && |Active(gw.devices)| < WORD16 && |f| < WORD16 {
      LoginDecodes(gw);
    }
  }

  // so gateways that encode alike look alike
  lemma LoginIsInjective(a: Gateway, b: Gateway)
    requires CountsFit(Active(a.devices)) && |Active(a.devices)| < WORD16
    requires CountsFit(Active(b.devices)) && |Active(b.devices)| < WORD16
    requires Framed(LOGIN, LoginFields(a)) == Framed(LOGIN, LoginFields(b))
    requires |Framed(LOGIN, LoginFields(a))| < WORD16
    ensures LoginView(a) == LoginView(b)
  {
    LoginDecodes(a);
    LoginDecodes(b);
  }
}
