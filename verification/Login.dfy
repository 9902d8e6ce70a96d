// The login message and its encoder.
module Login {
  import opened Bytes
  import opened ByteBuffer
  import opened Framing
  import opened Gateway
  import opened Sequences

  const LOGIN: word16 := 0x0001
  const IAS_ZONE: word16 := 0x0402
  const MAINS_POWER_OUTLET: word16 := 0x0009
  const SHADE: word16 := 0x0200

  // ---- the message

  function EndpointBytes(e: Endpoint): seq<byte> {
    [e.endpoint] + BigEndian(e.deviceId, 2)
    + if e.deviceId == IAS_ZONE then BigEndian(e.zonetype, 2)
      else if e.deviceId == MAINS_POWER_OUTLET || e.deviceId == SHADE then [e.state]
      else []
  }

  function EndpointsBytes(es: seq<Endpoint>): seq<byte> {
    if es == [] then [] else EndpointBytes(es[0]) + EndpointsBytes(es[1..])
  }

  function DeviceBytes(d: Device): seq<byte> {
    BigEndian(d.ieee, 8) + [|d.devicename|] + d.devicename + [|d.endpoints| % 256] + EndpointsBytes(d.endpoints)
  }

  function DevicesBytes(ds: seq<Device>): seq<byte> {
    if ds == [] then [] else DeviceBytes(ds[0]) + DevicesBytes(ds[1..])
  }

  function GatewayBytes(gw: Gateway): seq<byte> {
    BigEndian(gw.id, 6) + [|gw.name|] + gw.name + [gw.boxversion] + [gw.protocolversion]
  }

  function LoginFields(gw: Gateway): seq<byte> {
    GatewayBytes(gw) + BigEndian(|Active(gw.devices)| % WORD16, 2) + DevicesBytes(Active(gw.devices))
  }

  // ---- the encoder

  method EncodeEndpoint(buf: array<byte>, p0: nat, e: Endpoint) returns (p: nat)
    requires p0 + |EndpointBytes(e)| <= buf.Length
    modifies buf
    ensures p == p0 + |EndpointBytes(e)| && buf[..p] == old(buf[..p0]) + EndpointBytes(e)
  {
    p := WriteByte(buf, p0, e.endpoint);
    p := WriteWord(buf, p, e.deviceId);
    if e.deviceId == IAS_ZONE {
      p := WriteWord(buf, p, e.zonetype);
    } else if e.deviceId == MAINS_POWER_OUTLET || e.deviceId == SHADE {
      p := WriteByte(buf, p, e.state);
    }
  }

  lemma EndpointsStep(es: seq<Endpoint>, i: nat)
    requires i < |es|
    ensures EndpointsBytes(es[i..]) == EndpointBytes(es[i]) + EndpointsBytes(es[i + 1..])
  {
    assert es[i..][1..] == es[i + 1..];
  }

  method EncodeEndpoints(buf: array<byte>, p0: nat, es: seq<Endpoint>) returns (p: nat)
    requires p0 + |EndpointsBytes(es)| <= buf.Length
    modifies buf
    ensures p == p0 + |EndpointsBytes(es)| && buf[..p] == old(buf[..p0]) + EndpointsBytes(es)
  {
    p := p0;
    ghost var all := buf[..p] + EndpointsBytes(es);
    assert es[0..] == es;
    for i := 0 to |es|
      invariant p <= |all| <= buf.Length && buf[..p] + EndpointsBytes(es[i..]) == all
    {
      EndpointsStep(es, i);
      Assoc(buf[..p], EndpointBytes(es[i]), EndpointsBytes(es[i + 1..]));
      p := EncodeEndpoint(buf, p, es[i]);
    }
    assert buf[..p] + [] == buf[..p];
  }

  method EncodeDevice(buf: array<byte>, p0: nat, d: Device) returns (p: nat)
    requires p0 + |DeviceBytes(d)| <= buf.Length
    modifies buf
    ensures p == p0 + |DeviceBytes(d)| && buf[..p] == old(buf[..p0]) + DeviceBytes(d)
  {
    AssocFive(buf[..p0], BigEndian(d.ieee, 8), [|d.devicename|], d.devicename, [|d.endpoints| % 256],
              EndpointsBytes(d.endpoints));
    p := WriteQuadword(buf, p0, d.ieee);
    p := WriteByte(buf, p, |d.devicename|);
    p := Put(buf, p, d.devicename);
    var count := EndpointCount(d);
    p := WriteByte(buf, p, count);
    p := EncodeEndpoints(buf, p, d.endpoints);
  }

  lemma DevicesStep(devices: seq<Device>, i: nat)
    requires i < |devices|
    ensures var rest := DevicesBytes(Active(devices[i + 1..]));
      DevicesBytes(Active(devices[i..])) == if IsActive(devices[i]) then DeviceBytes(devices[i]) + rest else rest
  {
    ActiveStep(devices, i);
    if IsActive(devices[i]) {
      var rest := Active(devices[i + 1..]);
      assert ([devices[i]] + rest)[0] == devices[i] && ([devices[i]] + rest)[1..] == rest;
    }
  }

  method EncodeDevices(buf: array<byte>, p0: nat, devices: seq<Device>) returns (p: nat)
    requires p0 + |DevicesBytes(Active(devices))| <= buf.Length
    modifies buf
    ensures p == p0 + |DevicesBytes(Active(devices))|
    ensures buf[..p] == old(buf[..p0]) + DevicesBytes(Active(devices))
  {
    p := p0;
    ghost var all := buf[..p] + DevicesBytes(Active(devices));
    assert devices[0..] == devices;
    for i := 0 to |devices|
      invariant p <= |all| <= buf.Length && buf[..p] + DevicesBytes(Active(devices[i..])) == all
    {
      DevicesStep(devices, i);
      if IsActive(devices[i]) {
        Assoc(buf[..p], DeviceBytes(devices[i]), DevicesBytes(Active(devices[i + 1..])));
        p := EncodeDevice(buf, p, devices[i]);
      }
    }
    assert buf[..p] + [] == buf[..p];
  }

  method EncodeLogin(buf: array<byte>, gw: Gateway) returns (n: nat)
    requires |Framed(LOGIN, LoginFields(gw))| <= buf.Length
    modifies buf
    ensures n == |Framed(LOGIN, LoginFields(gw))| && buf[..n] == Framed(LOGIN, LoginFields(gw))
  {
    var p := Start(buf, LOGIN);
    ghost var start := buf[..p];
    p := EncodeGateway(buf, p, gw);
    var count := ActiveDeviceCount(gw);
    p := WriteWord(buf, p, count);
    p := EncodeDevices(buf, p, gw.devices);
    Assoc(start, GatewayBytes(gw), BigEndian(count, 2));
    Assoc(start, GatewayBytes(gw) + BigEndian(count, 2), DevicesBytes(Active(gw.devices)));
    n := Finish(buf, p, LOGIN, LoginFields(gw));
  }

  method EncodeGateway(buf: array<byte>, p0: nat, gw: Gateway) returns (p: nat)
    requires p0 + |GatewayBytes(gw)| <= buf.Length
    modifies buf
    ensures p == p0 + |GatewayBytes(gw)| && buf[..p] == old(buf[..p0]) + GatewayBytes(gw)
  {
    AssocFive(buf[..p0], BigEndian(gw.id, 6), [|gw.name|], gw.name, [gw.boxversion], [gw.protocolversion]);
    p := WriteMac(buf, p0, gw.id);
    p := WriteByte(buf, p, |gw.name|);
    p := Put(buf, p, gw.name);
    p := WriteByte(buf, p, gw.boxversion);
    p := WriteByte(buf, p, gw.protocolversion);
  }
}
