/** The sniffer swarm: the list of capture devices the shell manages, and each
    device's reassembly buffer and packet counter. Sockets, threads and the
    stream wiring are not modelled; a device is its identity and its fields. */
module Sync {
  import opened Wrappers
  import opened Builtins
  import opened Stubs

  /** What save_swarm writes per device and load reads back. */
  datatype DeviceRecord = DeviceRecord(name: string, host: string, port: int)

  /** One row of the overview table. */
  datatype OverviewRow = OverviewRow(
    name: string, host: string, port: int, setUp: bool, alive: string,
    monitoring: bool, dataTransmitted: int)

  /** Python's str() of a bool. */
  function PyBool(b: bool): string {
    if b then "True" else "False"
  }

  /** The Alive column: the online flag, followed by the retry count when
      there have been retries. */
  function Alive(online: bool, retries: int): (r: string)
    ensures |r| >= |PyBool(online)| && r[..|PyBool(online)|] == PyBool(online)
    ensures r == PyBool(online) <==> retries == 0
  {
    if retries == 0 then PyBool(online)
    else PyBool(online) + "(Retries " + IntToString(retries) + ")"
  }

  /** The parsed stubs, or None as soon as one does not parse. */
  function ParseAll<T>(ms: seq<string>, parse: string -> Option<T>): (r: Option<seq<T>>)
    ensures r.Some? <==> forall i :: 0 <= i < |ms| ==> parse(ms[i]).Some?
    ensures r.Some? ==> |r.value| == |ms| && forall i :: 0 <= i < |ms| ==> r.value[i] == parse(ms[i]).value
  {
    if ms == [] then Some([])
    else match parse(ms[0])
      case None => None
      case Some(v) =>
        match ParseAll(ms[1..], parse)
        case None => None
        case Some(vs) =>
          assert forall i :: 1 <= i < |ms| ==> ms[i] == ms[1..][i - 1];
          Some([v] + vs)
  }

  class CaptureDevice {
    const name: string
    const host: string
    const port: int
    var totalDataPackets: int
    var lastStub: string
    var setUp: bool
    var online: bool
    var monitoring: bool
    var retries: int

    constructor (name: string, address: string, port: int)
      ensures this.name == name && this.host == address && this.port == port
      ensures totalDataPackets == 0 && lastStub == "" && retries == 0
      ensures !setUp && !online && !monitoring
    {
      this.name := name;
      this.host := address;
      this.port := port;
      totalDataPackets := 0;
      lastStub := "";
      setUp := false;
      online := false;
      monitoring := false;
      retries := 0;
    }

    /** Multipath filtering is switched off: the data passes unchanged. */
    function RemoveMultipathFading<T>(data: seq<T>): (r: seq<T>)
      ensures |r| == |data| && forall i :: 0 <= i < |r| ==> r[i] == data[i]
    {
      data
    }

    /** Counts the packets of a batch and passes the batch on. */
    method RegisterDataPackets<T>(x: seq<T>) returns (r: seq<T>)
      modifies this
      ensures r == x
      ensures totalDataPackets == old(totalDataPackets) + |x|
      ensures lastStub == old(lastStub) && retries == old(retries)
      ensures setUp == old(setUp) && online == old(online) && monitoring == old(monitoring)
    {
      totalDataPackets := totalDataPackets + |x|;
      r := x;
    }

    /** Reassembles the JSON objects of a chunk: the stubs of the carried-over
        rest plus the chunk are parsed in order, and what remains once every
        stub is deleted is carried over. When a stub does not parse, the call
        fails and the carried-over rest is kept. */
    method PutTogetherStubs<T>(newData: string, parse: string -> Option<T>) returns (parsed: Option<seq<T>>)
      modifies this
      ensures parsed == ParseAll(FindStubs(old(lastStub) + newData), parse)
      ensures parsed.Some? ==> lastStub == RemoveEach(old(lastStub) + newData, FindStubs(old(lastStub) + newData))
      ensures parsed.None? ==> lastStub == old(lastStub)
      ensures totalDataPackets == old(totalDataPackets) && retries == old(retries)
      ensures setUp == old(setUp) && online == old(online) && monitoring == old(monitoring)
    {
      var allData := lastStub + newData;
      var matches := FindStubs(allData);
      var restData := allData;
      for i := 0 to |matches|
        invariant RemoveEach(restData, matches[i..]) == RemoveEach(allData, matches)
      {
        assert matches[i..][0] == matches[i] && matches[i..][1..] == matches[i + 1..];
        restData := RemoveAll(restData, matches[i]);
      }
      parsed := ParseAll(matches, parse);
      if parsed.Some? {
        lastStub := restData;
      }
    }
  }

  /** The device triples of a list, in list order. */
  function Records(ds: seq<CaptureDevice>): (r: seq<DeviceRecord>)
    ensures |r| == |ds|
    ensures forall i :: 0 <= i < |ds| ==> r[i] == DeviceRecord(ds[i].name, ds[i].host, ds[i].port)
  {
    if ds == [] then [] else [DeviceRecord(ds[0].name, ds[0].host, ds[0].port)] + Records(ds[1..])
  }

  /** The first device of the list with the given name. */
  function FirstNamed(ds: seq<CaptureDevice>, name: string): (r: Option<CaptureDevice>)
    ensures r.Some? ==> r.value in ds && r.value.name == name
    ensures r.None? <==> forall i :: 0 <= i < |ds| ==> ds[i].name != name
  {
    if ds == [] then None
    else if ds[0].name == name then Some(ds[0])
    else
      var r := FirstNamed(ds[1..], name);
      assert forall i :: 1 <= i < |ds| ==> ds[i] == ds[1..][i - 1];
      r
  }

  /** The position of the first occurrence of d. */
  function IndexOf(ds: seq<CaptureDevice>, d: CaptureDevice): (i: nat)
    requires d in ds
    ensures i < |ds| && ds[i] == d && d !in ds[..i]
  {
    if ds[0] == d then 0 else
      var j := IndexOf(ds[1..], d);
      assert ds[..j + 1] == [ds[0]] + ds[1..][..j];
      j + 1
  }

  /** The first device with the given name comes before every other one. */
  lemma {:induction false} FirstNamedIsFirst(ds: seq<CaptureDevice>, name: string)
    requires FirstNamed(ds, name).Some?
    ensures var i := IndexOf(ds, FirstNamed(ds, name).value);
      forall j :: 0 <= j < i ==> ds[j].name != name
  {
    if ds[0].name != name {
      var d := FirstNamed(ds, name).value;
      assert FirstNamed(ds[1..], name) == Some(d);
      FirstNamedIsFirst(ds[1..], name);
      assert d != ds[0];
      assert IndexOf(ds, d) == IndexOf(ds[1..], d) + 1;
      assert forall j :: 1 <= j < |ds| ==> ds[j] == ds[1..][j - 1];
    }
  }

  /** A device's row of the overview table. */
  function Row(d: CaptureDevice): OverviewRow
    reads d
  {
    OverviewRow(d.name, d.host, d.port, d.setUp, Alive(d.online, d.retries), d.monitoring, d.totalDataPackets)
  }

  /** The overview rows, one per device in list order. */
  function Overview(ds: seq<CaptureDevice>): (rows: seq<OverviewRow>)
    reads ds
    ensures |rows| == |ds|
    ensures forall i :: 0 <= i < |ds| ==> rows[i] == Row(ds[i])
  {
    if ds == [] then [] else [Row(ds[0])] + Overview(ds[1..])
  }

  class Swarm {
    var deviceList: seq<CaptureDevice>

    constructor ()
      ensures deviceList == []
    {
      deviceList := [];
    }

    /** Removes the first occurrence of the device; fails, changing nothing,
        when the device is not in the list. */
    method RemoveDevice(device: CaptureDevice) returns (removed: bool)
      modifies this
      ensures removed <==> device in old(deviceList)
      ensures removed ==> var i := IndexOf(old(deviceList), device);
        deviceList == old(deviceList)[..i] + old(deviceList)[i + 1..]
      ensures !removed ==> deviceList == old(deviceList)
    {
      var i := 0;
      while i < |deviceList| && deviceList[i] != device
        invariant 0 <= i <= |deviceList|
        invariant device !in deviceList[..i]
      {
        assert deviceList[..i + 1] == deviceList[..i] + [deviceList[i]];
        i := i + 1;
      }
      if i == |deviceList| {
        assert deviceList[..i] == deviceList;
        return false;
      }
      assert IndexOf(deviceList, device) == i;
      deviceList := deviceList[..i] + deviceList[i + 1..];
      removed := true;
    }

    method ClearDevices()
      modifies this
      ensures deviceList == []
    {
      deviceList := [];
    }

    /** The first device with the given name, or None. */
    method DoesExist(deviceName: string) returns (d: Option<CaptureDevice>)
      ensures d == FirstNamed(deviceList, deviceName)
    {
      for i := 0 to |deviceList|
        invariant FirstNamed(deviceList, deviceName) == FirstNamed(deviceList[i..], deviceName)
      {
        if deviceName == deviceList[i].name {
          return Some(deviceList[i]);
        }
        assert deviceList[i..][1..] == deviceList[i + 1..];
      }
      return None;
    }

    method AddDevice(captureDevice: CaptureDevice)
      modifies this
      ensures deviceList == old(deviceList) + [captureDevice]
    {
      deviceList := deviceList + [captureDevice];
    }

    /** The triples to write to the configuration file, in list order. */
    method SaveSwarm() returns (result: seq<DeviceRecord>)
      ensures result == Records(deviceList)
    {
      result := [];
      for i := 0 to |deviceList|
        invariant result == Records(deviceList[..i])
      {
        assert deviceList[..i + 1] == deviceList[..i] + [deviceList[i]];
        RecordsAppend(deviceList[..i], [deviceList[i]]);
        result := result + [DeviceRecord(deviceList[i].name, deviceList[i].host, deviceList[i].port)];
      }
      assert deviceList[..|deviceList|] == deviceList;
    }

    /** Appends one new device per record, in order, keeping the list. */
    method Load(devices: seq<DeviceRecord>)
      modifies this
      ensures |deviceList| == |old(deviceList)| + |devices|
      ensures deviceList[..|old(deviceList)|] == old(deviceList)
      ensures Records(deviceList) == Records(old(deviceList)) + devices
      ensures forall i :: |old(deviceList)| <= i < |deviceList| ==> fresh(deviceList[i])
    {
      for i := 0 to |devices|
        invariant |deviceList| == |old(deviceList)| + i
        invariant deviceList[..|old(deviceList)|] == old(deviceList)
        invariant Records(deviceList) == Records(old(deviceList)) + devices[..i]
        invariant forall j :: |old(deviceList)| <= j < |deviceList| ==> fresh(deviceList[j])
      {
        var dev := new CaptureDevice(devices[i].name, devices[i].host, devices[i].port);
        RecordsAppend(deviceList, [dev]);
        assert devices[..i + 1] == devices[..i] + [devices[i]];
        AddDevice(dev);
      }
      assert devices[..|devices|] == devices;
    }

    /** The overview table's rows, or None when there are no devices. */
    method GetSwarmOverview() returns (table: Option<seq<OverviewRow>>)
      ensures table.None? <==> deviceList == []
      ensures table.Some? ==> table.value == Overview(deviceList)
    {
      var data := [];
      for i := 0 to |deviceList|
        invariant |data| == i
        invariant forall k :: 0 <= k < i ==> data[k] == Row(deviceList[k])
      {
        var device := deviceList[i];
        data := data + [OverviewRow(device.name, device.host, device.port, device.setUp,
          Alive(device.online, device.retries), device.monitoring, device.totalDataPackets)];
      }
      assert data == Overview(deviceList);
      if |data| == 0 {
        return None;
      }
      return Some(data);
    }
  }

  lemma RecordsAppend(a: seq<CaptureDevice>, b: seq<CaptureDevice>)
    ensures Records(a + b) == Records(a) + Records(b)
  {
  }

}
