// Devices and endpoints, in the order of their lists.
module Gateway {
  import opened Arithmetic
  import opened Bytes
  import opened ByteBuffer
  import opened Options

  const DEVICE_APP_DEL: word32 := 1
  const DEVICE_LEAVE_NET: word32 := 1024

  // the texts of character arrays of 256, 33 and 17 bytes
  type name = s: seq<byte> | |s| <= 255 && 0 !in s
  type shortname = s: seq<byte> | |s| <= 32 && 0 !in s
  type datetext = s: seq<byte> | |s| <= 16 && 0 !in s

  datatype Endpoint = Endpoint(endpoint: byte, profileId: word16, deviceId: word16, zonetype: word16, state: byte)

  datatype Device = Device(
    ieee: word64, shortaddr: word16, devicename: name, status: word32,
    zclversion: byte, applicationversion: byte, stackversion: byte, hwversion: byte,
    manufacturername: shortname, modelidentifier: shortname, datecode: datetext, powersource: byte,
    endpoints: seq<Endpoint>)

  // the devices and their endpoints in the order of their lists
  datatype Gateway = Gateway(id: word64, name: name, boxversion: byte, protocolversion: byte, devices: seq<Device>)

  predicate HasStatus(d: Device, status: word32) {
    BitAnd(d.status, status) != 0
  }

  // neither deleted by the app nor off the network
  predicate IsActive(d: Device) {
    !HasStatus(d, DEVICE_APP_DEL) && !HasStatus(d, DEVICE_LEAVE_NET)
  }

  function Active(devices: seq<Device>): seq<Device> {
    if devices == [] then []
    else if IsActive(devices[0]) then [devices[0]] + Active(devices[1..])
    else Active(devices[1..])
  }

  lemma ActiveStep(devices: seq<Device>, i: nat)
    requires i < |devices|
    ensures Active(devices[i..])
         == if IsActive(devices[i]) then [devices[i]] + Active(devices[i + 1..]) else Active(devices[i + 1..])
  {
    assert devices[i..][1..] == devices[i + 1..];
  }

  lemma Bits(x: nat)
    ensures BitAnd(x, 1) != 0 <==> x % 2 == 1
    ensures BitAnd(x, 1024) != 0 <==> x / 1024 % 2 == 1
  {
    assert Pow2(0) == 1 && Pow2(5) == 32;
    Pow2Divides(5, 10);
    BitIsSet(x, x, 0, 0, 1);
    BitIsSet(x, x / 1024, x % 1024, 10, 1024);
  }

  // bits 0 and 10 of the status are both clear
  lemma ActiveBits(d: Device)
    ensures IsActive(d) <==> d.status % 2 == 0 && d.status / 1024 % 2 == 0
  {
    Bits(d.status);
  }

  // the places of the active devices, in order
  ghost predicate Picks(at: seq<nat>, devices: seq<Device>) {
    && (forall k :: 0 <= k < |at| ==> at[k] < |devices|)
    && (forall j, k :: 0 <= j < k < |at| ==> at[j] < at[k])
    && forall i: nat :: i < |devices| ==>
      (i in at <==> devices[i].status % 2 == 0 && devices[i].status / 1024 % 2 == 0)
  }

  ghost predicate StandAt(ds: seq<Device>, at: seq<nat>, devices: seq<Device>) {
    |ds| == |at| && forall k :: 0 <= k < |at| ==> at[k] < |devices| && ds[k] == devices[at[k]]
  }

  // the active devices are exactly those, each as often as it is listed and in the order of the list
  lemma {:induction false} ActiveAt(devices: seq<Device>) returns (at: seq<nat>)
    ensures Picks(at, devices) && StandAt(Active(devices), at, devices)
  {
    if devices == [] {
      at := [];
    } else {
      var rest := ActiveAt(devices[1..]);
      at := PicksOnward(rest, Active(devices[1..]), devices);
    }
  }

  lemma PicksOnward(rest: seq<nat>, ds: seq<Device>, devices: seq<Device>) returns (at: seq<nat>)
    requires devices != [] && Picks(rest, devices[1..]) && StandAt(ds, rest, devices[1..])
    ensures Picks(at, devices) && StandAt(if IsActive(devices[0]) then [devices[0]] + ds else ds, at, devices)
  {
    var later := seq(|rest|, k requires 0 <= k < |rest| => rest[k] + 1);
    StandBehind(rest, ds, devices, later);
    ActiveBits(devices[0]);
    at := if IsActive(devices[0]) then [0] + later else later;
    PicksBehind(rest, devices, later, at);
  }

  lemma StandBehind(rest: seq<nat>, ds: seq<Device>, devices: seq<Device>, later: seq<nat>)
    requires devices != [] && StandAt(ds, rest, devices[1..]) && |later| == |rest|
    requires forall k :: 0 <= k < |rest| ==> later[k] == rest[k] + 1
    ensures StandAt(ds, later, devices) && StandAt([devices[0]] + ds, [0] + later, devices)
  {
  }

  lemma PicksBehind(rest: seq<nat>, devices: seq<Device>, later: seq<nat>, at: seq<nat>)
    requires devices != [] && Picks(rest, devices[1..]) && |later| == |rest|
    requires forall k :: 0 <= k < |rest| ==> later[k] == rest[k] + 1
    requires at == if devices[0].status % 2 == 0 && devices[0].status / 1024 % 2 == 0 then [0] + later else later
    ensures Picks(at, devices)
  {
    forall i: nat | i < |devices|
      ensures i in at <==> devices[i].status % 2 == 0 && devices[i].status / 1024 % 2 == 0
    {
      LaterPicks(rest, later, i);
      if i > 0 { assert devices[i] == devices[1..][i - 1]; }
    }
  }

  lemma LaterPicks(rest: seq<nat>, later: seq<nat>, i: nat)
    requires |later| == |rest| && forall k :: 0 <= k < |rest| ==> later[k] == rest[k] + 1
    ensures i in later <==> i > 0 && i - 1 in rest
  {
    if i > 0 && i - 1 in rest {
      var k :| 0 <= k < |rest| && rest[k] == i - 1;
      assert later[k] == i;
    }
  }

  // a 16-bit count
  method ActiveDeviceCount(gw: Gateway) returns (count: word16)
    ensures count == |Active(gw.devices)| % WORD16
  {
    count := 0;
    ghost var seen := 0;
    assert gw.devices[0..] == gw.devices;
    for i := 0 to |gw.devices|
      invariant seen + |Active(gw.devices[i..])| == |Active(gw.devices)| && count == seen % WORD16
    {
      ActiveStep(gw.devices, i);
      if IsActive(gw.devices[i]) {
        count := (count + 1) % WORD16;
        seen := seen + 1;
      }
    }
  }

  // an 8-bit count
  method EndpointCount(d: Device) returns (count: byte)
    ensures count == |d.endpoints| % 256
  {
    count := 0;
    for i := 0 to |d.endpoints|
      invariant count == i % 256
    {
      count := (count + 1) % 256;
    }
  }

  // the first device of that address
  method GetDevice(gw: Gateway, ieee: word64) returns (d: Option<Device>)
    ensures d.None? ==> forall i :: 0 <= i < |gw.devices| ==> gw.devices[i].ieee != ieee
    ensures d.Some? ==> d.value.ieee == ieee
    ensures d.Some? ==> exists i :: 0 <= i < |gw.devices| && gw.devices[i] == d.value
                                    && forall j :: 0 <= j < i ==> gw.devices[j].ieee != ieee
  {
    for i := 0 to |gw.devices|
      invariant forall j :: 0 <= j < i ==> gw.devices[j].ieee != ieee
    {
      if gw.devices[i].ieee == ieee {
        return Some(gw.devices[i]);
      }
    }
    d := None;
  }

  method GetEndpoint(d: Device, endpoint: byte) returns (e: Option<Endpoint>)
    ensures e.None? ==> forall i :: 0 <= i < |d.endpoints| ==> d.endpoints[i].endpoint != endpoint
    ensures e.Some? ==> e.value.endpoint == endpoint
    ensures e.Some? ==> exists i :: 0 <= i < |d.endpoints| && d.endpoints[i] == e.value
                                    && forall j :: 0 <= j < i ==> d.endpoints[j].endpoint != endpoint
  {
    for i := 0 to |d.endpoints|
      invariant forall j :: 0 <= j < i ==> d.endpoints[j].endpoint != endpoint
    {
      if d.endpoints[i].endpoint == endpoint {
        return Some(d.endpoints[i]);
      }
    }
    e := None;
  }
}
