/**
 * The screen state of NetworkToolsViewModel and what `loadData` does to it:
 * one refresh reads the DHCP lease, looks up the ISP, probes the subnet, reads
 * the neighbour table and publishes the device list with the router first.
 * Every reading of the outside world (Wi-Fi connectivity, the lease, the
 * router's host name, the HTTP exchange, the neighbour file, the clock) is an
 * input of the refresh.
 */
module NetworkTools {
  import opened Wrappers
  import opened Sequences
  import opened Int32
  import opened KotlinText
  import opened Http
  import opened IpAddress
  import opened SubnetProbe
  import opened ArpScan
  import SpeedTest

  /* ----------------------------- the state ----------------------------- */

  const ANY_ADDRESS := "0.0.0.0"
  const LOADING := "جاري التحميل..."
  const UNKNOWN_ISP := "Unknown ISP"
  const OFFLINE := "Offline / No Internet"
  const WIFI_NOTE := "⚠️ يجب الاتصال بالواي فاي لعرض الأجهزة المتصلة."
  const ISOLATION_NOTE := "⚠️ لم يتم العثور على أجهزة أخرى. قد يكون Client Isolation مفعل في الراوتر/الشبكة."
  const ERROR_NOTE := "⚠️ حدث خطأ أثناء الفحص."

  /** `NetworkToolsState`, without the Wi-Fi details. */
  datatype NetworkToolsState = NetworkToolsState(
    localIp: string,
    routerIp: string,
    routerName: string,
    ispName: string,
    devices: seq<DeviceInfo>,
    isScanning: bool,
    lastUpdated: string,
    note: string)

  /** `NetworkToolsState()` with its default values. */
  const INITIAL_STATE := NetworkToolsState(ANY_ADDRESS, ANY_ADDRESS, "", LOADING, [], false, "", "")

  /* ----------------------------- the ISP lookup ----------------------------- */

  /**
   * `fetchIspSafe`: a failed status or a blank body shows "Unknown ISP", a body
   * that parses gives its `org` field, and an exception (including one thrown
   * by `JSONObject`) shows "Offline / No Internet".
   */
  function FetchIspSafe(x: Exchange, json: Json): (r: string)
    ensures x.Threw? ==> r == OFFLINE
    ensures x.Response? && (!x.successful || IsBlank(BodyText(x.body))) ==> r == UNKNOWN_ISP
    ensures x.Response? && x.successful && !IsBlank(BodyText(x.body)) ==>
      r == if json.Malformed? then OFFLINE else OptString(json.fields, "org", UNKNOWN_ISP)
  {
    match x
    case Threw => OFFLINE
    case Response(successful, _, body) =>
      if !successful then UNKNOWN_ISP
      else if IsBlank(BodyText(body)) then UNKNOWN_ISP
      else
        match json
        case Malformed => OFFLINE
        case Object(fields) => OptString(fields, "org", UNKNOWN_ISP)
  }

  /** On a successful exchange with a non-blank, well-formed body both lookups of the ISP agree. */
  lemma IspAgreesWithSpeedTest(x: Exchange, json: Json)
    requires x.Response? && x.successful && !IsBlank(BodyText(x.body)) && json.Object?
    ensures FetchIspSafe(x, json) == SpeedTest.FetchNetworkInfo(x, json).1
  {
  }

  /** The lookup shows the offline text only when the exchange or the parse failed, or the field says so. */
  lemma IspOfflineOnlyOnFailure(x: Exchange, json: Json)
    requires FetchIspSafe(x, json) == OFFLINE
    ensures x.Threw? || json.Malformed? || ("org" in json.fields && json.fields["org"] == OFFLINE)
  {
  }

  /* ----------------------------- the DHCP lease ----------------------------- */

  /** `wifiManager.dhcpInfo`: the three little-endian integers the refresh uses. */
  datatype DhcpInfo = DhcpInfo(ipAddress: Int, gateway: Int, netmask: Int)

  datatype DhcpPack = DhcpPack(localIp: string, gatewayIp: string, netmask: Int)

  /** `s.ifBlank { fallback }` */
  function IfBlank(s: string, fallback: string): (r: string)
    ensures !IsBlank(s) ==> r == s
    ensures IsBlank(s) ==> r == fallback
  {
    if IsBlank(s) then fallback else s
  }

  /** A dotted quad starts with a digit, so it is never blank. */
  lemma IntToIpNotBlank(x: Int)
    ensures !IsBlank(IntToIp(x))
  {
    var s := IntToIp(x);
    assert s[0] == NatToString(x.b0)[0];
    assert IsDigit(s[0]);
  }

  /**
   * `getDhcpInfoSafe`: the lease's addresses as text, with "0.0.0.0" for a
   * blank one. Since `intToIp` never returns blank text the fallback never
   * applies, and both texts read back as the lease's integers.
   */
  function GetDhcpInfoSafe(dhcp: DhcpInfo): (p: DhcpPack)
    ensures p.localIp == IntToIp(dhcp.ipAddress) && p.gatewayIp == IntToIp(dhcp.gateway)
    ensures IpToInt(p.localIp) == dhcp.ipAddress && IpToInt(p.gatewayIp) == dhcp.gateway
    ensures p.netmask == dhcp.netmask
  {
    IntToIpNotBlank(dhcp.ipAddress);
    IntToIpNotBlank(dhcp.gateway);
    IntToIpRoundTrip(dhcp.ipAddress);
    IntToIpRoundTrip(dhcp.gateway);
    var localIp := IntToIp(dhcp.ipAddress);
    var gateway := IntToIp(dhcp.gateway);
    DhcpPack(if IsBlank(localIp) then ANY_ADDRESS else localIp,
             if IsBlank(gateway) then ANY_ADDRESS else gateway,
             dhcp.netmask)
  }

  /* ----------------------------- the subnet scan ----------------------------- */

  /** The rows `readArpTable` returns for a file. */
  function TableOf(file: ArpFile): seq<ArpEntry> {
    if file.Readable? && file.lines != [] then ArpEntries(file.lines[1..]) else []
  }

  /**
   * `scanDevicesUsingRealSubnet`: probe the host range of the local subnet
   * (skipping the local address), then read the neighbour table — `arpAfter`
   * is the file as it reads once the probes are done — and name, filter and
   * sort its rows. The awaited probe batches are returned with the list.
   */
  method ScanDevicesUsingRealSubnet(localIp: string, gatewayIp: string, netmask: Int, arpAfter: ArpFile)
    returns (batches: seq<seq<Probe>>, devices: seq<DeviceInfo>)
    ensures var r := RangeFor(IpToInt(localIp), netmask);
      Flatten(batches) == ProbesFor(Targets(Value(r.start), Value(r.end), r.step, Value(IpToInt(localIp))))
    ensures devices == Devices(TableOf(arpAfter), localIp, gatewayIp)
    ensures UniqueIpsOf(devices) && forall d :: d in devices ==> d.ip != ANY_ADDRESS && d.ip != localIp
  {
    var localInt := IpToInt(localIp);
    var range := RangeFor(localInt, netmask);
    batches := ActiveProbeRange(Value(range.start), Value(range.end), range.step, Value(localInt));
    var arp := ReadArpTable(arpAfter);
    devices := Devices(arp, localIp, gatewayIp);
    DevicesProperties(arp, localIp, gatewayIp);
  }

  /* ----------------------------- the router row ----------------------------- */

  /** `DeviceInfo(if (routerName.isNotBlank()) "Router • $routerName" else "Router", routerIp)` */
  function RouterItem(routerName: string, routerIp: string): (d: DeviceInfo)
    ensures d.ip == routerIp
    ensures IsBlank(routerName) <==> d.name == "Router"
    ensures !IsBlank(routerName) ==> d.name == "Router • " + routerName
  {
    if !IsBlank(routerName) then
      var name := "Router • " + routerName;
      assert |name| > |"Router"|;
      DeviceInfo(name, routerIp)
    else DeviceInfo("Router", routerIp)
  }

  /** `list.filter { it.ip != routerIp }` */
  function Others(ds: seq<DeviceInfo>, ip: string): (r: seq<DeviceInfo>)
    ensures |r| <= |ds|
    ensures forall d :: d in r <==> d in ds && d.ip != ip
  {
    if ds == [] then []
    else (if ds[0].ip != ip then [ds[0]] else []) + Others(ds[1..], ip)
  }

  /** The filter keeps the order of its input: it distributes over concatenation. */
  lemma {:induction false} OthersAppend(a: seq<DeviceInfo>, b: seq<DeviceInfo>, ip: string)
    ensures Others(a + b, ip) == Others(a, ip) + Others(b, ip)
    decreases |a|
  {
    if a == [] {
      assert a + b == b;
    } else {
      var head := if a[0].ip != ip then [a[0]] else [];
      TailOfAppend(a, b);
      OthersAppend(a[1..], b, ip);
      AppendAssoc(head, Others(a[1..], ip), Others(b, ip));
    }
  }

  /** The device list with the router inserted at the top. */
  function RouterFirst(scanned: seq<DeviceInfo>, routerIp: string, routerName: string): seq<DeviceInfo> {
    [RouterItem(routerName, routerIp)] + Others(scanned, routerIp)
  }

  /** The hint shown when the list holds no more than the router. */
  function ScanNote(devices: seq<DeviceInfo>): (note: string)
    ensures note == "" <==> |devices| > 1
  {
    if |devices| <= 1 then ISOLATION_NOTE else ""
  }

  lemma UniqueCons(x: DeviceInfo, t: seq<DeviceInfo>)
    requires UniqueIpsOf(t) && forall d :: d in t ==> d.ip != x.ip
    ensures UniqueIpsOf([x] + t)
  {
    var s := [x] + t;
    forall i, j | 0 <= i < j < |s| ensures s[i].ip != s[j].ip {
      assert s[j] == t[j - 1];
      if i > 0 {
        assert s[i] == t[i - 1];
      } else {
        assert t[j - 1] in t;
      }
    }
  }

  lemma UniqueTail(s: seq<DeviceInfo>)
    requires s != [] && UniqueIpsOf(s)
    ensures UniqueIpsOf(s[1..]) && forall d :: d in s[1..] ==> d.ip != s[0].ip
  {
    forall d | d in s[1..] ensures d.ip != s[0].ip {
      var k :| 0 <= k < |s[1..]| && s[1..][k] == d;
      assert s[k + 1] == d;
    }
  }

  /** Filtering keeps IPs pairwise distinct. */
  lemma {:induction false} OthersUnique(ds: seq<DeviceInfo>, ip: string)
    requires UniqueIpsOf(ds)
    ensures UniqueIpsOf(Others(ds, ip))
    decreases |ds|
  {
    if ds != [] {
      UniqueTail(ds);
      OthersUnique(ds[1..], ip);
      if ds[0].ip != ip {
        UniqueCons(ds[0], Others(ds[1..], ip));
      }
    }
  }

  /**
   * The published list: exactly one row carries the router's address and it
   * comes first; every other scanned device follows; no two rows share an IP.
   */
  lemma RouterFirstShape(scanned: seq<DeviceInfo>, routerIp: string, routerName: string)
    requires UniqueIpsOf(scanned)
    ensures var r := RouterFirst(scanned, routerIp, routerName);
      && r[0] == RouterItem(routerName, routerIp)
      && (forall k :: 1 <= k < |r| ==> r[k].ip != routerIp)
      && (forall d :: d in scanned && d.ip != routerIp ==> d in r)
      && (forall d :: d in r[1..] ==> d in scanned)
      && UniqueIpsOf(r)
  {
    var r := RouterFirst(scanned, routerIp, routerName);
    var o := Others(scanned, routerIp);
    assert r[1..] == o;
    forall k | 1 <= k < |r| ensures r[k].ip != routerIp {
      assert r[k] == o[k - 1];
      assert o[k - 1] in o;
    }
    OthersUnique(scanned, routerIp);
    UniqueCons(RouterItem(routerName, routerIp), o);
  }

  /** The isolation hint appears exactly when the scan found nothing but the router. */
  lemma IsolationNoteIff(scanned: seq<DeviceInfo>, routerIp: string, routerName: string)
    ensures ScanNote(RouterFirst(scanned, routerIp, routerName)) == ISOLATION_NOTE
      <==> forall d :: d in scanned ==> d.ip == routerIp
  {
    var o := Others(scanned, routerIp);
    if o != [] {
      assert o[0] in o;
    }
  }

  /* ----------------------------- one refresh ----------------------------- */

  /**
   * What one refresh meets. `onWifi` is `isOnWifi`; `localIpAddress` is the
   * interface address read off Wi-Fi; `routerHostName` is the reverse lookup
   * (`None` when it threw); `isp`/`ispJson` are the ISP exchange and its parse;
   * `arpAfter` is the neighbour file after probing; `failed` says that a call
   * inside the body threw; `started`/`finished` are the two `nowString()` texts.
   */
  datatype Refresh = Refresh(
    onWifi: bool,
    localIpAddress: string,
    dhcp: DhcpInfo,
    routerHostName: Option<string>,
    isp: Exchange,
    ispJson: Json,
    arpAfter: ArpFile,
    failed: bool,
    started: string,
    finished: string)

  /** The `Pack` the IO block hands back. */
  datatype Pack = Pack(localIp: string, routerIp: string, routerName: string, isp: string, devices: seq<DeviceInfo>, note: string)

  /** The pack that a refresh produces when nothing throws. */
  function PackOf(env: Refresh): Pack {
    var isp := FetchIspSafe(env.isp, env.ispJson);
    if !env.onWifi then
      Pack(IfBlank(env.localIpAddress, ANY_ADDRESS), ANY_ADDRESS, "", isp, [], WIFI_NOTE)
    else
      var dhcp := GetDhcpInfoSafe(env.dhcp);
      var routerName := env.routerHostName.GetOr("");
      var list := RouterFirst(Devices(TableOf(env.arpAfter), dhcp.localIp, dhcp.gatewayIp), dhcp.gatewayIp, routerName);
      Pack(dhcp.localIp, dhcp.gatewayIp, routerName, isp, list, ScanNote(list))
  }

  /** The state published while the refresh runs. */
  function Scanning(s: NetworkToolsState, env: Refresh): NetworkToolsState {
    s.(isScanning := true, lastUpdated := env.started, note := "")
  }

  /** The state published when the refresh ends. */
  function Refreshed(s: NetworkToolsState, env: Refresh): NetworkToolsState {
    var t := Scanning(s, env);
    if env.failed then
      t.(isScanning := false, lastUpdated := env.finished, devices := [], note := ERROR_NOTE)
    else
      var p := PackOf(env);
      t.(localIp := p.localIp, routerIp := p.routerIp, routerName := p.routerName, ispName := p.isp,
         devices := p.devices, isScanning := false, lastUpdated := env.finished, note := p.note)
  }

  /** A refresh always ends with the scan flag cleared and the finishing time shown. */
  lemma RefreshEnds(s: NetworkToolsState, env: Refresh)
    ensures !Refreshed(s, env).isScanning && Refreshed(s, env).lastUpdated == env.finished
    ensures Scanning(s, env).isScanning && Scanning(s, env).note == ""
  {
  }

  /** A failed refresh clears the list, shows the error note and keeps the addresses and ISP shown before. */
  lemma FailedRefresh(s: NetworkToolsState, env: Refresh)
    requires env.failed
    ensures var t := Refreshed(s, env);
      t.devices == [] && t.note == ERROR_NOTE
      && t.localIp == s.localIp && t.routerIp == s.routerIp && t.routerName == s.routerName && t.ispName == s.ispName
  {
  }

  /** Off Wi-Fi nothing is scanned: no devices, no router, and the Wi-Fi note. */
  lemma OffWifiRefresh(s: NetworkToolsState, env: Refresh)
    requires !env.failed && !env.onWifi
    ensures var t := Refreshed(s, env);
      t.devices == [] && t.note == WIFI_NOTE && t.routerIp == ANY_ADDRESS && t.routerName == ""
      && t.localIp == IfBlank(env.localIpAddress, ANY_ADDRESS)
      && t.ispName == FetchIspSafe(env.isp, env.ispJson)
  {
  }

  /**
   * On Wi-Fi the list starts with the gateway's row, its IPs are pairwise
   * distinct, it contains neither the local address (unless it is the gateway)
   * nor 0.0.0.0, and the isolation note shows exactly when it holds one row.
   */
  lemma OnWifiRefresh(s: NetworkToolsState, env: Refresh)
    requires !env.failed && env.onWifi
    ensures var t := Refreshed(s, env);
      var gateway := IntToIp(env.dhcp.gateway);
      && t.localIp == IntToIp(env.dhcp.ipAddress) && t.routerIp == gateway
      && t.devices != [] && t.devices[0].ip == gateway
      && UniqueIpsOf(t.devices)
      && (forall k :: 1 <= k < |t.devices| ==>
            t.devices[k].ip != gateway && t.devices[k].ip != t.localIp && t.devices[k].ip != ANY_ADDRESS)
      && (t.note == ISOLATION_NOTE <==> |t.devices| == 1)
  {
    var dhcp := GetDhcpInfoSafe(env.dhcp);
    var scanned := Devices(TableOf(env.arpAfter), dhcp.localIp, dhcp.gatewayIp);
    var routerName := env.routerHostName.GetOr("");
    DevicesProperties(TableOf(env.arpAfter), dhcp.localIp, dhcp.gatewayIp);
    RouterFirstShape(scanned, dhcp.gatewayIp, routerName);
    var list := RouterFirst(scanned, dhcp.gatewayIp, routerName);
    forall k | 1 <= k < |list| ensures list[k].ip != dhcp.localIp && list[k].ip != ANY_ADDRESS {
      assert list[k] in list[1..];
    }
  }

  /**
   * Every device of the table other than the gateway, the local address and
   * 0.0.0.0 is listed after a successful refresh on Wi-Fi.
   */
  lemma OnWifiListsTable(s: NetworkToolsState, env: Refresh, e: ArpEntry)
    requires !env.failed && env.onWifi
    requires e in TableOf(env.arpAfter)
    requires e.ip != ANY_ADDRESS && e.ip != IntToIp(env.dhcp.ipAddress) && e.ip != IntToIp(env.dhcp.gateway)
    ensures exists d :: d in Refreshed(s, env).devices && d.ip == e.ip
  {
    var dhcp := GetDhcpInfoSafe(env.dhcp);
    var arp := TableOf(env.arpAfter);
    var scanned := Devices(arp, dhcp.localIp, dhcp.gatewayIp);
    DevicesCoverTable(arp, dhcp.localIp, dhcp.gatewayIp, e);
    var d :| d in scanned && d.ip == e.ip;
    assert d in Others(scanned, dhcp.gatewayIp);
    assert d in RouterFirst(scanned, dhcp.gatewayIp, env.routerHostName.GetOr(""));
  }

  /** The `withContext(Dispatchers.IO)` block of `loadData`, when nothing in it throws. */
  method RunIoBlock(env: Refresh) returns (pack: Pack)
    ensures pack == PackOf(env)
  {
    var isp := FetchIspSafe(env.isp, env.ispJson);
    if !env.onWifi {
      return Pack(IfBlank(env.localIpAddress, ANY_ADDRESS), ANY_ADDRESS, "", isp, [], WIFI_NOTE);
    }
    var dhcp := GetDhcpInfoSafe(env.dhcp);
    var routerName := env.routerHostName.GetOr("");
    var _, scanned := ScanDevicesUsingRealSubnet(dhcp.localIp, dhcp.gatewayIp, dhcp.netmask, env.arpAfter);
    var devices := [RouterItem(routerName, dhcp.gatewayIp)] + Others(scanned, dhcp.gatewayIp);
    assert devices == RouterFirst(Devices(TableOf(env.arpAfter), dhcp.localIp, dhcp.gatewayIp), dhcp.gatewayIp, routerName);
    var note := ScanNote(devices);
    pack := Pack(dhcp.localIp, dhcp.gatewayIp, routerName, isp, devices, note);
  }

  /** The view model: the value of its state flow, and every value the flow has held. */
  class NetworkToolsViewModel {
    var state: NetworkToolsState
    var published: seq<NetworkToolsState>

    constructor()
      ensures state == INITIAL_STATE && published == [INITIAL_STATE]
    {
      state := INITIAL_STATE;
      published := [INITIAL_STATE];
    }

    /**
     * `loadData`: publish the scanning state, run the IO block, and publish
     * either its pack or, when something threw, the error state.
     */
    method LoadData(env: Refresh)
      modifies this
      ensures state == Refreshed(old(state), env)
      ensures published == old(published) + [Scanning(old(state), env), state]
    {
      state := state.(isScanning := true, lastUpdated := env.started, note := "");
      published := published + [state];
      if env.failed {
        state := state.(isScanning := false, lastUpdated := env.finished, devices := [], note := ERROR_NOTE);
      } else {
        var pack := RunIoBlock(env);
        state := state.(localIp := pack.localIp, routerIp := pack.routerIp, routerName := pack.routerName,
                        ispName := pack.isp, devices := pack.devices, isScanning := false,
                        lastUpdated := env.finished, note := pack.note);
      }
      published := published + [state];
    }
  }
}
