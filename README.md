# Speed test and network tools: a verified model

This project models the logic of the Mobix speed-test Android app in Dafny:
the LAN scan of the network tools screen (address conversion, subnet range
and stride, the probe loop, the neighbour-table parser, the device pipeline
and the refresh of the screen state), the measurement side of the speed test
(ping statistics, Mbps, the tick loops, the order of emitted results, the
network-info lookup and the history mappers), the classification rules of the
result screen, the display helpers of the tools screen, the regex field
extractor of the IP-info service, and the navigation guard that opens the
result screen once per test.

Kotlin `Int` is modelled by four bytes with explicit 32-bit wrap-around
(`Int32`), `Double` by `real`, strings by `seq<char>`. Everything the app
reads from the outside world — HTTP exchanges, the parsed JSON object, ping
outcomes, byte counters at each tick, the neighbour-table file, the DHCP
lease, Wi-Fi connectivity and clock readings — is a parameter.

Modules: `Wrappers`, `Int32`, `KotlinText` (trim, case, split, decimal
numbers), `Http`, `IpAddress`, `SubnetProbe`, `ArpScan`, `NetworkTools`,
`ToolsScreen`, `IpInfo`, `SpeedModels`, `SpeedTest`, `ResultDetail`,
`Navigation`.

Where the written code and its description disagree, the model follows the
code: the mask is applied to the little-endian DHCP integer, so the range is
not the subnet the description speaks of (see Findings); `fetchIspSafe` tests
the body with `isBlank` while `fetchNetworkInfo` tests it with `isNotEmpty`, so
a whitespace-only body gives "Unknown ISP" on the tools screen and
("Offline", "Check Connection") in the speed test.

## Model

| member | source | states |
|---|---|---|
| Int32.Add | app/src/main/java/com/mobix/speedtest/ui/screens/tools/NetworkToolsViewModel.kt:157 | Kotlin `Int` addition: the signed result is the mathematical sum wrapped into the 32-bit range |
| Int32.Sub | app/src/main/java/com/mobix/speedtest/ui/screens/tools/NetworkToolsViewModel.kt:158 | Kotlin `Int` subtraction, wrapped into the 32-bit range |
| Int32.AddBytes | app/src/main/java/com/mobix/speedtest/ui/screens/tools/NetworkToolsViewModel.kt:157 | the byte-wise adder's result as an unsigned number, plus 2^32 times its carry bit, is the unsigned sum of the operands |
| Int32.SubBytes | app/src/main/java/com/mobix/speedtest/ui/screens/tools/NetworkToolsViewModel.kt:158 | the byte-wise subtractor's result as an unsigned number, minus 2^32 times its borrow bit, is the unsigned difference of the operands |
| Int32.AddIsBytes | app/src/main/java/com/mobix/speedtest/ui/screens/tools/NetworkToolsViewModel.kt:157 | the wrapped sum is exactly the low 32 bits of the byte-wise sum with carries |
| Int32.SubIsBytes | app/src/main/java/com/mobix/speedtest/ui/screens/tools/NetworkToolsViewModel.kt:158 | the wrapped difference is exactly the low 32 bits of the byte-wise difference with borrows |
| Int32.And | app/src/main/java/com/mobix/speedtest/ui/screens/tools/NetworkToolsViewModel.kt:153 | `localInt and mask`: masking with all bits set keeps the value, with no bits set gives 0 |
| Int32.Or | app/src/main/java/com/mobix/speedtest/ui/screens/tools/NetworkToolsViewModel.kt:154 | `network or mask.inv()`: or with 0 keeps the value, with all bits set gives all bits set |
| Int32.AndBits | app/src/main/java/com/mobix/speedtest/ui/screens/tools/NetworkToolsViewModel.kt:153 | each of the 32 bits of `x and y` is set exactly when it is set in both operands |
| Int32.OrBits | app/src/main/java/com/mobix/speedtest/ui/screens/tools/NetworkToolsViewModel.kt:154 | each of the 32 bits of `x or y` is set exactly when it is set in either operand |
| Int32.Inv | app/src/main/java/com/mobix/speedtest/ui/screens/tools/NetworkToolsViewModel.kt:154 | `mask.inv()`: the signed value of the complement is `-v - 1` |
| KotlinText.Trim | app/src/main/java/com/mobix/speedtest/ui/screens/tools/NetworkToolsScreen.kt:584 | `trim()`: the slice left after removing the longest whitespace prefix and suffix (everything removed is whitespace, and the slice neither starts nor ends with it); empty exactly for blank input |
| KotlinText.TrimIdempotent | app/src/main/java/com/mobix/speedtest/ui/screens/tools/NetworkToolsScreen.kt:584 | trimming twice equals trimming once |
| KotlinText.Split | app/src/main/java/com/mobix/speedtest/ui/screens/tools/NetworkToolsViewModel.kt:324 | `split(".")` gives at least one part and no part holds the separator |
| KotlinText.SplitJoin | app/src/main/java/com/mobix/speedtest/ui/screens/tools/NetworkToolsViewModel.kt:324 | a part without the separator followed by the separator splits off as the first part |
| KotlinText.ParseNatToString | app/src/main/java/com/mobix/speedtest/ui/screens/tools/NetworkToolsViewModel.kt:327 | `toIntOrNull` reads back the decimal text of every value up to `Int.MAX_VALUE` |
| KotlinText.SubstringAfterLast | app/src/main/java/com/mobix/speedtest/ui/screens/tools/NetworkToolsViewModel.kt:334 | `substringAfterLast(".", missing)`: the text after the last dot, which holds no dot, or the `missing` text when there is no dot |
| KotlinText.TakeLast | app/src/main/java/com/mobix/speedtest/ui/screens/tools/NetworkToolsViewModel.kt:280 | `takeLast(n)`: the last `min(n, length)` characters |
| KotlinText.RemoveCharAppend | app/src/main/java/com/mobix/speedtest/ui/screens/tools/NetworkToolsViewModel.kt:280 | `replace(":", "")` keeps the order of the other characters: it distributes over concatenation |
| IpAddress.OctetOf | app/src/main/java/com/mobix/speedtest/ui/screens/tools/NetworkToolsViewModel.kt:326-330 | an unparsable part counts as 0; otherwise only the low 8 bits of the part are kept |
| IpAddress.IntToIpRoundTrip | app/src/main/java/com/mobix/speedtest/ui/screens/tools/NetworkToolsViewModel.kt:312-331 | `ipToInt(intToIp(x)) == x` for every 32-bit `x` |
| IpAddress.IpToIntNormalises | app/src/main/java/com/mobix/speedtest/ui/screens/tools/NetworkToolsViewModel.kt:323-331 | text that does not split into exactly four parts reads as 0 ("0.0.0.0"); four parts come back as the quad of their octets |
| IpAddress.IpToIntRoundTripIffCanonical | app/src/main/java/com/mobix/speedtest/ui/screens/tools/NetworkToolsViewModel.kt:312-331 | `intToIp(ipToInt(s)) == s` exactly when `s` is a canonical dotted quad |
| IpAddress.LastOctetOfIntToIp | app/src/main/java/com/mobix/speedtest/ui/screens/tools/NetworkToolsViewModel.kt:312-336 | the sort key of a printed address is its highest byte, which `intToIp` writes as the last octet |
| IpAddress.LastOctetWithoutDot | app/src/main/java/com/mobix/speedtest/ui/screens/tools/NetworkToolsViewModel.kt:333-336 | every text without a dot sorts as `Int.MAX_VALUE`, because `substringAfterLast(".", "")` gives "" |
| SubnetProbe.StepFor | app/src/main/java/com/mobix/speedtest/ui/screens/tools/NetworkToolsViewModel.kt:160-163 | the stride is at least 1, and exactly 1 for at most 512 hosts |
| SubnetProbe.EffectiveMask | app/src/main/java/com/mobix/speedtest/ui/screens/tools/NetworkToolsViewModel.kt:151 | a non-zero netmask is used as given; netmask 0 is replaced by `0xFFFFFF00.toInt()` |
| SubnetProbe.RangeWithin | app/src/main/java/com/mobix/speedtest/ui/screens/tools/NetworkToolsViewModel.kt:153-163 | network is `local and mask` and broadcast `network or mask.inv()`; hostCount is never negative and is `max(0, end - start + 1)` when that width fits an `Int` (`CountsWidth`); step is the stride for that count |
| SubnetProbe.RangeFrom | app/src/main/java/com/mobix/speedtest/ui/screens/tools/NetworkToolsViewModel.kt:157-163 | the hosts strictly inside `network .. broadcast`: start is `network + 1` and end `broadcast - 1` in 32-bit arithmetic, hostCount is the width whenever it fits an `Int`, step is the stride for that count |
| SubnetProbe.HostCount | app/src/main/java/com/mobix/speedtest/ui/screens/tools/NetworkToolsViewModel.kt:157-162 | `max(0, end - start + 1)` in 32-bit arithmetic is never negative and is the true width whenever that width fits an `Int` |
| SubnetProbe.FallbackMaskText | app/src/main/java/com/mobix/speedtest/ui/screens/tools/NetworkToolsViewModel.kt:151 | the "fallback /24" constant `0xFFFFFF00` prints as 0.255.255.255 on the little-endian DHCP integer |
| SubnetProbe.FallbackVariesFirstOctet | app/src/main/java/com/mobix/speedtest/ui/screens/tools/NetworkToolsViewModel.kt:151-163 | with netmask 0 the range varies the first dotted octet (1 to 254), step 1 |
| SubnetProbe.GenuineMaskProbesNothing | app/src/main/java/com/mobix/speedtest/ui/screens/tools/NetworkToolsViewModel.kt:151-163 | with a genuine 255.255.255.0 mask, `end < start` and the probe loop visits nothing, for every local address |
| SubnetProbe.HostOrderRangeCoversSubnet | app/src/main/java/com/mobix/speedtest/ui/screens/tools/NetworkToolsViewModel.kt:151-163 | the range worked out in host byte order covers x.y.z.1 to x.y.z.254 with step 1 |
| SubnetProbe.ProbeCounterWrapsPastEnd | app/src/main/java/com/mobix/speedtest/ui/screens/tools/NetworkToolsViewModel.kt:201-227 | a wide mask gives a stride with which the 32-bit counter `i += step` wraps from below `end` to a value below `end` again |
| SubnetProbe.TargetsInRange | app/src/main/java/com/mobix/speedtest/ui/screens/tools/NetworkToolsViewModel.kt:201-205 | every probed counter lies in `[start, end]` and is not the local address |
| SubnetProbe.TargetsIncreasing | app/src/main/java/com/mobix/speedtest/ui/screens/tools/NetworkToolsViewModel.kt:201-227 | the probed counters are strictly increasing (visited in order, each once) |
| SubnetProbe.TargetsComplete | app/src/main/java/com/mobix/speedtest/ui/screens/tools/NetworkToolsViewModel.kt:201-227 | every `start + n*step` not above `end` and not the local address is probed |
| SubnetProbe.TargetsOnProgression | app/src/main/java/com/mobix/speedtest/ui/screens/tools/NetworkToolsViewModel.kt:201-227 | every probed counter is `start + n*step` for some `n` |
| SubnetProbe.TargetsCount | app/src/main/java/com/mobix/speedtest/ui/screens/tools/NetworkToolsViewModel.kt:201-227 | the number of targets times the stride is at most the width of the range |
| SubnetProbe.ProbeCountBound | app/src/main/java/com/mobix/speedtest/ui/screens/tools/NetworkToolsViewModel.kt:160-227 | for every lease whose `end - start + 1` fits an `Int`, the stride the scan computes keeps the probes to at most 1023 addresses |
| SubnetProbe.CountedStrideBound | app/src/main/java/com/mobix/speedtest/ui/screens/tools/NetworkToolsViewModel.kt:160-163 | for any range whose count is its width and whose stride follows that count, at most 1023 addresses are probed |
| SubnetProbe.FullMaskNeverEnds | app/src/main/java/com/mobix/speedtest/ui/screens/tools/NetworkToolsViewModel.kt:151-227 | netmask 255.255.255.255 at local 0x80000000 gives start `Int.MIN_VALUE + 1`, `end == Int.MAX_VALUE`, a wrapped width so that hostCount is 0 and the stride 1, and every counter value passes `i <= end` |
| SubnetProbe.ProbePortsDiffer | app/src/main/java/com/mobix/speedtest/ui/screens/tools/NetworkToolsViewModel.kt:196-213 | each probe tries two different ports of `[80, 443, 22, 53]`, rotating with the probe index |
| SubnetProbe.ActiveProbeRange | app/src/main/java/com/mobix/speedtest/ui/screens/tools/NetworkToolsViewModel.kt:189-230 | the awaited batches together probe exactly the targets, in order, with indices 0,1,2,…; every batch holds 1 to 80 probes and all but the last exactly 80 |
| ArpScan.SplitWs | app/src/main/java/com/mobix/speedtest/ui/screens/tools/NetworkToolsViewModel.kt:263 | `split(Regex("\\s+"))` yields at least one field and no field holds a whitespace character |
| ArpScan.SplitWsJoinWith | app/src/main/java/com/mobix/speedtest/ui/screens/tools/NetworkToolsViewModel.kt:263 | splitting non-empty fields joined by arbitrary non-empty runs of `\s` gives the fields back |
| ArpScan.ParseArpLine | app/src/main/java/com/mobix/speedtest/ui/screens/tools/NetworkToolsViewModel.kt:263-270 | fewer than four fields keep nothing; with four or more the row is kept exactly when the trimmed field 0 is not blank and the trimmed, lowered field 3 contains ':' and is not 00:00:00:00:00:00, and the entry is then (trimmed field 0, lowered field 3), valid |
| ArpScan.ParseJoinedRow | app/src/main/java/com/mobix/speedtest/ui/screens/tools/NetworkToolsViewModel.kt:263-270 | for every row of four or more non-empty fields separated by runs of `\s`: kept exactly under the conditions on fields 0 and 3, as (trimmed field 0, lowered field 3) |
| ArpScan.ParseFormattedRow | app/src/main/java/com/mobix/speedtest/ui/screens/tools/NetworkToolsViewModel.kt:263-270 | a row padded with any runs of `\s` whose IP and hardware address are already in kept form parses to exactly those two fields |
| ArpScan.IndentedLineRejected | app/src/main/java/com/mobix/speedtest/ui/screens/tools/NetworkToolsViewModel.kt:263-265 | a row starting with whitespace splits into an empty first field and is dropped |
| ArpScan.ArpEntriesAppend | app/src/main/java/com/mobix/speedtest/ui/screens/tools/NetworkToolsViewModel.kt:261-271 | parsing rows in sequence keeps their order: the entries of `a + b` are those of `a` then those of `b` |
| ArpScan.ArpEntriesValid | app/src/main/java/com/mobix/speedtest/ui/screens/tools/NetworkToolsViewModel.kt:261-271 | every entry kept is valid and comes from one of the rows |
| ArpScan.ReadArpTable | app/src/main/java/com/mobix/speedtest/ui/screens/tools/NetworkToolsViewModel.kt:253-277 | a missing or unreadable file gives no rows; otherwise the header line is dropped and the remaining rows are parsed in order |
| ArpScan.MacSuffix | app/src/main/java/com/mobix/speedtest/ui/screens/tools/NetworkToolsViewModel.kt:280 | the suffix has at most five characters and no ':' |
| ArpScan.MacSuffixOf | app/src/main/java/com/mobix/speedtest/ui/screens/tools/NetworkToolsViewModel.kt:280 | for `…ab:cd` the suffix is `ABCD` |
| ArpScan.LastPartOfQuad | app/src/main/java/com/mobix/speedtest/ui/screens/tools/NetworkToolsViewModel.kt:281 | the `#` part of a fallback name is the last octet of the address |
| ArpScan.NameFor | app/src/main/java/com/mobix/speedtest/ui/screens/tools/NetworkToolsViewModel.kt:182-184 | the name is "Router" exactly for the gateway address, and the fallback name for every other address; the IP is kept |
| ArpScan.FallbackName | app/src/main/java/com/mobix/speedtest/ui/screens/tools/NetworkToolsViewModel.kt:279-283 | the fallback name starts with `Device • `, ends with `)` and is never "Router" |
| ArpScan.DeviceNameOf | app/src/main/java/com/mobix/speedtest/ui/screens/tools/NetworkToolsViewModel.kt:182-283 | a non-gateway device at `a.b.c.d` whose hardware address ends `…hh:ll` is named `Device • HHLL (#d)`, the hex letters upper-cased |
| ArpScan.WithoutIp | app/src/main/java/com/mobix/speedtest/ui/screens/tools/NetworkToolsViewModel.kt:176-181 | the filter keeps exactly the entries with a different IP |
| ArpScan.WithoutIpAppend | app/src/main/java/com/mobix/speedtest/ui/screens/tools/NetworkToolsViewModel.kt:176-181 | the filter keeps the input order: it distributes over concatenation |
| ArpScan.DistinctByIpIps | app/src/main/java/com/mobix/speedtest/ui/screens/tools/NetworkToolsViewModel.kt:177 | `distinctBy { it.ip }` keeps every IP of its input |
| ArpScan.DistinctByIpUnique | app/src/main/java/com/mobix/speedtest/ui/screens/tools/NetworkToolsViewModel.kt:177 | the kept IPs are pairwise distinct |
| ArpScan.DistinctByIpFirst | app/src/main/java/com/mobix/speedtest/ui/screens/tools/NetworkToolsViewModel.kt:177 | an entry is kept exactly when it is the first with its IP |
| ArpScan.FirstOfIpWithoutIp | app/src/main/java/com/mobix/speedtest/ui/screens/tools/NetworkToolsViewModel.kt:176-177 | an entry that is first with its IP after the 0.0.0.0 filter was first with its IP in the table |
| ArpScan.DistinctByIpSound | app/src/main/java/com/mobix/speedtest/ui/screens/tools/NetworkToolsViewModel.kt:177 | every kept entry is the first of its IP in the input |
| ArpScan.DistinctByIpComplete | app/src/main/java/com/mobix/speedtest/ui/screens/tools/NetworkToolsViewModel.kt:177 | the first entry of each IP is kept |
| ArpScan.DevicesFromTable | app/src/main/java/com/mobix/speedtest/ui/screens/tools/NetworkToolsViewModel.kt:175-186 | every device listed is the first table row with its IP, named by `NameFor`, and is neither 0.0.0.0 nor the local address |
| ArpScan.DevicesCoverTable | app/src/main/java/com/mobix/speedtest/ui/screens/tools/NetworkToolsViewModel.kt:175-186 | every table row other than 0.0.0.0 and the local address has a listed device with its IP |
| ArpScan.NameAll | app/src/main/java/com/mobix/speedtest/ui/screens/tools/NetworkToolsViewModel.kt:182-185 | each kept entry is named in place |
| ArpScan.SortBy | app/src/main/java/com/mobix/speedtest/ui/screens/tools/NetworkToolsViewModel.kt:186 | sorting is a permutation of its input |
| ArpScan.SortBySorted | app/src/main/java/com/mobix/speedtest/ui/screens/tools/NetworkToolsViewModel.kt:186 | the result is sorted non-decreasingly by `lastOctetOrMax` |
| ArpScan.SortByStable | app/src/main/java/com/mobix/speedtest/ui/screens/tools/NetworkToolsViewModel.kt:186 | the sort is stable: the devices with each key keep their relative order |
| ArpScan.DevicesProperties | app/src/main/java/com/mobix/speedtest/ui/screens/tools/NetworkToolsViewModel.kt:175-186 | the scan result is sorted, has unique IPs, never holds 0.0.0.0 or the local address, names every device from the first table row with its IP, and lists every other table address |
| ArpScan.UniqueDevices | app/src/main/java/com/mobix/speedtest/ui/screens/tools/NetworkToolsViewModel.kt:175-186 | the IPs of the scan result are pairwise distinct |
| NetworkTools.FetchIspSafe | app/src/main/java/com/mobix/speedtest/ui/screens/tools/NetworkToolsViewModel.kt:340-357 | a failed status or blank body gives "Unknown ISP", a parsed body its `org` field, and any exception "Offline / No Internet" |
| NetworkTools.IspAgreesWithSpeedTest | app/src/main/java/com/mobix/speedtest/ui/screens/tools/NetworkToolsViewModel.kt:347-351 | on a successful, non-blank, well-formed exchange the tools screen and the speed test report the same ISP |
| NetworkTools.IspOfflineOnlyOnFailure | app/src/main/java/com/mobix/speedtest/ui/screens/tools/NetworkToolsViewModel.kt:340-357 | the offline text appears only after an exception or when the `org` field itself says so |
| NetworkTools.IfBlank | app/src/main/java/com/mobix/speedtest/ui/screens/tools/NetworkToolsViewModel.kt:70 | `ifBlank`: non-blank text is kept, blank text replaced |
| NetworkTools.IntToIpNotBlank | app/src/main/java/com/mobix/speedtest/ui/screens/tools/NetworkToolsViewModel.kt:297-298 | a printed address is never blank |
| NetworkTools.GetDhcpInfoSafe | app/src/main/java/com/mobix/speedtest/ui/screens/tools/NetworkToolsViewModel.kt:289-302 | the "0.0.0.0" fallback never applies: both addresses are the printed lease integers and read back as them |
| NetworkTools.ScanDevicesUsingRealSubnet | app/src/main/java/com/mobix/speedtest/ui/screens/tools/NetworkToolsViewModel.kt:145-187 | probes exactly the targets of the computed range and returns the named, filtered and sorted rows of the table read afterwards, with unique IPs and without 0.0.0.0 or the local address |
| NetworkTools.RouterItem | app/src/main/java/com/mobix/speedtest/ui/screens/tools/NetworkToolsViewModel.kt:93-96 | the router row carries the router IP; it is named plain "Router" exactly when the host name is blank, and "Router • " followed by the host name otherwise |
| NetworkTools.Others | app/src/main/java/com/mobix/speedtest/ui/screens/tools/NetworkToolsViewModel.kt:97 | the filter keeps exactly the devices with a different IP |
| NetworkTools.OthersAppend | app/src/main/java/com/mobix/speedtest/ui/screens/tools/NetworkToolsViewModel.kt:97 | the filter keeps the order of the scanned rows: it distributes over concatenation |
| NetworkTools.ScanNote | app/src/main/java/com/mobix/speedtest/ui/screens/tools/NetworkToolsViewModel.kt:104-106 | the note is empty exactly when the list holds more than one row |
| NetworkTools.OthersUnique | app/src/main/java/com/mobix/speedtest/ui/screens/tools/NetworkToolsViewModel.kt:97 | filtering keeps IPs pairwise distinct |
| NetworkTools.RouterFirstShape | app/src/main/java/com/mobix/speedtest/ui/screens/tools/NetworkToolsViewModel.kt:91-102 | the list starts with the router row, no other row has the router IP, every other scanned device follows, and IPs are unique |
| NetworkTools.IsolationNoteIff | app/src/main/java/com/mobix/speedtest/ui/screens/tools/NetworkToolsViewModel.kt:97-106 | the isolation note shows exactly when every scanned device has the router IP |
| NetworkTools.RefreshEnds | app/src/main/java/com/mobix/speedtest/ui/screens/tools/NetworkToolsViewModel.kt:61-137 | the scanning state has the flag set and an empty note; the final state has it cleared on both paths |
| NetworkTools.FailedRefresh | app/src/main/java/com/mobix/speedtest/ui/screens/tools/NetworkToolsViewModel.kt:130-137 | after an exception the list is empty, the error note shows, and addresses and ISP are kept |
| NetworkTools.OffWifiRefresh | app/src/main/java/com/mobix/speedtest/ui/screens/tools/NetworkToolsViewModel.kt:67-129 | off Wi-Fi: no devices, router 0.0.0.0, empty router name, the Wi-Fi note, the interface address or 0.0.0.0 |
| NetworkTools.OnWifiRefresh | app/src/main/java/com/mobix/speedtest/ui/screens/tools/NetworkToolsViewModel.kt:78-129 | on Wi-Fi: the list starts with the gateway, IPs are unique, no later row is the gateway, the local address or 0.0.0.0, and the note shows iff the list has one row |
| NetworkTools.OnWifiListsTable | app/src/main/java/com/mobix/speedtest/ui/screens/tools/NetworkToolsViewModel.kt:78-129 | every table address other than 0.0.0.0, the local address and the gateway is listed |
| NetworkTools.RunIoBlock | app/src/main/java/com/mobix/speedtest/ui/screens/tools/NetworkToolsViewModel.kt:65-117 | the pack built by the IO block equals the pack specified for the refresh |
| NetworkTools.NetworkToolsViewModel.constructor | app/src/main/java/com/mobix/speedtest/ui/screens/tools/NetworkToolsViewModel.kt:39-56 | the state starts with the defaults of `NetworkToolsState()` |
| NetworkTools.NetworkToolsViewModel.LoadData | app/src/main/java/com/mobix/speedtest/ui/screens/tools/NetworkToolsViewModel.kt:61-139 | publishes the scanning state, then the refreshed state; the final state is the specified refresh of the old one |
| ToolsScreen.SafeText | app/src/main/java/com/mobix/speedtest/ui/screens/tools/NetworkToolsScreen.kt:582-585 | the result is the fallback or the trimmed value, which is then neither empty nor "null" |
| ToolsScreen.SafeTextFallback | app/src/main/java/com/mobix/speedtest/ui/screens/tools/NetworkToolsScreen.kt:582-585 | the fallback is returned exactly when the value is null, blank or trims to "null"; otherwise the trimmed value |
| ToolsScreen.SafeTextNonEmpty | app/src/main/java/com/mobix/speedtest/ui/screens/tools/NetworkToolsScreen.kt:582-585 | with a non-empty fallback the result is never empty |
| ToolsScreen.SafeTextIdempotent | app/src/main/java/com/mobix/speedtest/ui/screens/tools/NetworkToolsScreen.kt:582-585 | with a trimmed, non-empty fallback other than "null", applying `safeText` twice changes nothing |
| ToolsScreen.IconFor | app/src/main/java/com/mobix/speedtest/ui/screens/tools/NetworkToolsScreen.kt:498-505 | the router icon exactly for the router row; the iPhone icon only for names without "phone"; the generic icon only without "android" and "tv" |
| ToolsScreen.IconForFirstMatch | app/src/main/java/com/mobix/speedtest/ui/screens/tools/NetworkToolsScreen.kt:499-504 | off the router row, each icon is chosen exactly when its keywords occur and no earlier branch's keywords do |
| ToolsScreen.IphoneIconOnlyForIpad | app/src/main/java/com/mobix/speedtest/ui/screens/tools/NetworkToolsScreen.kt:499-504 | as written, the iPhone icon is reached exactly by names with "ipad" and none of the earlier keywords |
| ToolsScreen.IphoneGetsAndroidIcon | app/src/main/java/com/mobix/speedtest/ui/screens/tools/NetworkToolsScreen.kt:499-504 | every name containing "iphone" (any case) gets the Android-phone icon |
| ToolsScreen.IconForIntended | app/src/main/java/com/mobix/speedtest/ui/screens/tools/NetworkToolsScreen.kt:499-504 | the corrected classifier still gives the router icon to the router row |
| ToolsScreen.IntendedIphoneIcon | app/src/main/java/com/mobix/speedtest/ui/screens/tools/NetworkToolsScreen.kt:499-504 | the corrected classifier gives the iPhone icon to every name containing "iphone" |
| ToolsScreen.IntendedAgrees | app/src/main/java/com/mobix/speedtest/ui/screens/tools/NetworkToolsScreen.kt:499-504 | the corrected classifier agrees with the written one on names without "iphone" or "ipad" |
| ToolsScreen.KeysUniqueRouterRow | app/src/main/java/com/mobix/speedtest/ui/screens/tools/NetworkToolsScreen.kt:196-197 | with unique IPs, at most one row of the IP-keyed list is flagged as the router |
| IpInfo.SkipSpaces | app/src/main/java/com/mobix/speedtest/data/remote/IpInfoService.kt:33 | `\s*`: the position after the longest run of whitespace |
| IpInfo.NextQuote | app/src/main/java/com/mobix/speedtest/data/remote/IpInfoService.kt:33 | `[^"]*"`: the first quote at or after the position, if any |
| IpInfo.MatchAt | app/src/main/java/com/mobix/speedtest/data/remote/IpInfoService.kt:33 | a match starting at a position captures a value without '"' |
| IpInfo.FirstMatch | app/src/main/java/com/mobix/speedtest/data/remote/IpInfoService.kt:33-34 | the leftmost position where the pattern matches, and none before it |
| IpInfo.Find | app/src/main/java/com/mobix/speedtest/data/remote/IpInfoService.kt:32-35 | the value never contains '"'; "Unknown" when the pattern matches nowhere |
| IpInfo.FindLeftmost | app/src/main/java/com/mobix/speedtest/data/remote/IpInfoService.kt:32-35 | the capture of the leftmost match is returned |
| IpInfo.FindField | app/src/main/java/com/mobix/speedtest/data/remote/IpInfoService.kt:32-35 | for a body whose first quote opens `"key" : "value"`, the value is found (with any whitespace around the colon) |
| IpInfo.EscapedQuoteTruncates | app/src/main/java/com/mobix/speedtest/data/remote/IpInfoService.kt:33 | an escaped quote ends the capture: `"a\"b"` gives `a\` |
| IpInfo.NonStringValueNoMatch | app/src/main/java/com/mobix/speedtest/data/remote/IpInfoService.kt:33 | a key whose value is not a string (a number, null, an object) does not match there |
| IpInfo.ZipIsNotIp | app/src/main/java/com/mobix/speedtest/data/remote/IpInfoService.kt:33 | the key "ip" does not match inside `"zip"` |
| IpInfo.MatchStartsQuoted | app/src/main/java/com/mobix/speedtest/data/remote/IpInfoService.kt:33 | a match starts with a quote, the key and a quote |
| IpInfo.GetIpAndIsp | app/src/main/java/com/mobix/speedtest/data/remote/IpInfoService.kt:17-45 | a thrown call or an unsuccessful response is a failure ("Failed to get IP info"); otherwise `ip` and `org` are found independently in the body |
| IpInfo.GetIpAndIspNoQuote | app/src/main/java/com/mobix/speedtest/data/remote/IpInfoService.kt:37-43 | neither returned field contains a quote |
| SpeedTest.AttemptsAccounted | app/src/main/java/com/mobix/speedtest/data/repository/SpeedTestRepositoryImpl.kt:148-155 | each attempt adds one RTT or one failure: `|rtts| + failed == attempts` |
| SpeedTest.MinOf | app/src/main/java/com/mobix/speedtest/data/repository/SpeedTestRepositoryImpl.kt:157 | `minOrNull`: null exactly for no RTTs, otherwise one of them |
| SpeedTest.MinOfBelowAll | app/src/main/java/com/mobix/speedtest/data/repository/SpeedTestRepositoryImpl.kt:157 | the minimum is at most every RTT |
| SpeedTest.MeasureRealPingStats | app/src/main/java/com/mobix/speedtest/data/repository/SpeedTestRepositoryImpl.kt:141-162 | the stats are those of the successful RTTs and failures of the 15 attempts; the warm-up counts toward neither |
| SpeedTest.MinMsBound | app/src/main/java/com/mobix/speedtest/data/repository/SpeedTestRepositoryImpl.kt:157 | `minMs` is at most every RTT |
| SpeedTest.MinMsWithoutSuccess | app/src/main/java/com/mobix/speedtest/data/repository/SpeedTestRepositoryImpl.kt:157 | `minMs` is 999 when no probe succeeded |
| SpeedTest.LossInRange | app/src/main/java/com/mobix/speedtest/data/repository/SpeedTestRepositoryImpl.kt:160 | the loss percentage lies in [0, 100] when there was at least one attempt |
| SpeedTest.GapsNonNegative | app/src/main/java/com/mobix/speedtest/data/repository/SpeedTestRepositoryImpl.kt:159 | every consecutive RTT gap is non-negative |
| SpeedTest.JitterBounds | app/src/main/java/com/mobix/speedtest/data/repository/SpeedTestRepositoryImpl.kt:159 | jitter is non-negative, and 0 with fewer than two successes |
| SpeedTest.Gaps | app/src/main/java/com/mobix/speedtest/data/repository/SpeedTestRepositoryImpl.kt:159 | `zipWithNext { a, b -> abs(a - b) }`: one gap per consecutive pair, gap `i` being `|xs[i] - xs[i+1]|` |
| SpeedTest.BytesToMbps | app/src/main/java/com/mobix/speedtest/data/repository/SpeedTestRepositoryImpl.kt:164-167 | 0 for `seconds <= 0`; otherwise the rate times `seconds * 10^6` equals `bytes * 8` |
| SpeedTest.BytesToMbpsMonotone | app/src/main/java/com/mobix/speedtest/data/repository/SpeedTestRepositoryImpl.kt:164-167 | more bytes in the same time never give a lower rate |
| SpeedTest.BytesToMbpsNonNegative | app/src/main/java/com/mobix/speedtest/data/repository/SpeedTestRepositoryImpl.kt:164-167 | the rate of a non-negative byte count is non-negative |
| SpeedTest.UpdatesOf | app/src/main/java/com/mobix/speedtest/data/repository/SpeedTestRepositoryImpl.kt:192-200 | one callback per tick |
| SpeedTest.RunPhase | app/src/main/java/com/mobix/speedtest/data/repository/SpeedTestRepositoryImpl.kt:192-239 | the callbacks are the specified updates; the summary averages over the nominal duration and reports the running peak |
| SpeedTest.PeakMonotone | app/src/main/java/com/mobix/speedtest/data/repository/SpeedTestRepositoryImpl.kt:192-199 | `maxMbps` never decreases |
| SpeedTest.PeakAboveInstants | app/src/main/java/com/mobix/speedtest/data/repository/SpeedTestRepositoryImpl.kt:192-199 | `maxMbps` is at least every reported instantaneous value, and at least 0 |
| SpeedTest.PeakNonNegative | app/src/main/java/com/mobix/speedtest/data/repository/SpeedTestRepositoryImpl.kt:192 | `maxMbps` starts at 0 and stays non-negative |
| SpeedTest.UpdatesPeak | app/src/main/java/com/mobix/speedtest/data/repository/SpeedTestRepositoryImpl.kt:192-237 | reported peaks never decrease, each is at least every earlier instant, and the third argument equals the instantaneous value |
| SpeedTest.FetchNetworkInfo | app/src/main/java/com/mobix/speedtest/data/repository/SpeedTestRepositoryImpl.kt:108-139 | the five outcomes: exception, error status, empty body, malformed JSON, parsed fields with "Unknown IP"/"Unknown ISP" defaults |
| SpeedTest.ServerErrorCode | app/src/main/java/com/mobix/speedtest/data/repository/SpeedTestRepositoryImpl.kt:131 | the status code of a failed lookup can be read back from "Error <code>" |
| SpeedTest.RoundToInt | app/src/main/java/com/mobix/speedtest/data/repository/SpeedTestRepositoryImpl.kt:62-63 | the integer is within one half of the value |
| SpeedTest.Baseline | app/src/main/java/com/mobix/speedtest/data/repository/SpeedTestRepositoryImpl.kt:61-70 | the baseline names the Cloudflare server and network "Internet", carries the looked-up IP and ISP, ping and jitter rounded from `minMs` and `jitterMs`, the loss percentage and the clock reading, and zero speeds |
| SpeedTest.DownloadSamples | app/src/main/java/com/mobix/speedtest/data/repository/SpeedTestRepositoryImpl.kt:75-81 | one emission per download tick: sample `k` carries update `k`'s instant, peak and average in the download fields and is the baseline in every other field |
| SpeedTest.UploadSamples | app/src/main/java/com/mobix/speedtest/data/repository/SpeedTestRepositoryImpl.kt:90-96 | one emission per upload tick: sample `k` carries update `k`'s instant, peak and average in the upload fields and is the post-download result in every other field |
| SpeedTest.Emissions | app/src/main/java/com/mobix/speedtest/data/repository/SpeedTestRepositoryImpl.kt:47-104 | six fixed emissions plus one per tick of each phase |
| SpeedTest.EmitDownloadSamples | app/src/main/java/com/mobix/speedtest/data/repository/SpeedTestRepositoryImpl.kt:75-81 | appends exactly the download samples |
| SpeedTest.EmitUploadSamples | app/src/main/java/com/mobix/speedtest/data/repository/SpeedTestRepositoryImpl.kt:90-96 | appends exactly the upload samples |
| SpeedTest.StartSpeedTest | app/src/main/java/com/mobix/speedtest/data/repository/SpeedTestRepositoryImpl.kt:47-106 | the emitted sequence is the specified one, built from the lookup outcome, the ping statistics and the two phases |
| SpeedTest.EmissionOrder | app/src/main/java/com/mobix/speedtest/data/repository/SpeedTestRepositoryImpl.kt:47-104 | lookup label, ping label, baseline, download label, download samples, upload label, upload samples, then "اكتمل الاختبار" |
| SpeedTest.UploadCarriesDownload | app/src/main/java/com/mobix/speedtest/data/repository/SpeedTestRepositoryImpl.kt:82-104 | every upload-phase emission and the final one carry the download summary |
| SpeedTest.FinalResult | app/src/main/java/com/mobix/speedtest/data/repository/SpeedTestRepositoryImpl.kt:98-104 | the final emission carries both summaries and the baseline ping, jitter, loss and timestamp |
| SpeedTest.DomainRoundTrip | app/src/main/java/com/mobix/speedtest/data/repository/SpeedTestRepositoryImpl.kt:251-267 | `toDomain(toEntity(r)) == r` |
| SpeedTest.EntityRoundTrip | app/src/main/java/com/mobix/speedtest/data/repository/SpeedTestRepositoryImpl.kt:251-267 | `toEntity(toDomain(e)) == e` |
| SpeedModels.Labelled | app/src/main/java/com/mobix/speedtest/domain/models/SpeedResult.kt:5-25 | a label-only result: the given server name and clock reading; zero speeds, ping, jitter and loss |
| ResultDetail.Diagnose | app/src/main/java/com/mobix/speedtest/ui/screens/result/ResultDetailScreen.kt:510-543 | Excellent needs dl ≥ 150 and ping ≤ 15, Great dl ≥ 80 and ping ≤ 30, OK dl ≥ 30 |
| ResultDetail.PoorIff | app/src/main/java/com/mobix/speedtest/ui/screens/result/ResultDetailScreen.kt:514-540 | Poor exactly when dl < 30, whatever the ping |
| ResultDetail.DiagnoseFirstMatch | app/src/main/java/com/mobix/speedtest/ui/screens/result/ResultDetailScreen.kt:513-542 | each level holds exactly when its condition holds and no earlier one does |
| ResultDetail.DiagnoseMonotone | app/src/main/java/com/mobix/speedtest/ui/screens/result/ResultDetailScreen.kt:514-535 | a faster download or a lower ping never gives a worse level |
| ResultDetail.BuildSmartTags | app/src/main/java/com/mobix/speedtest/ui/screens/result/ResultDetailScreen.kt:547-571 | exactly three tags, gaming, streaming, calls, with their conditions (both directions) |
| ResultDetail.Clamp01 | app/src/main/java/com/mobix/speedtest/ui/screens/result/ResultDetailScreen.kt:282-284 | `coerceIn(0.0, 1.0)`: in [0,1], the identity inside it |
| ResultDetail.MiniBars | app/src/main/java/com/mobix/speedtest/ui/screens/result/ResultDetailScreen.kt:281-284 | all three fractions in [0,1]; download is dl/200 up to 200 and saturates there, upload ul/100 up to 100, latency 1 − ping/150 from 0 to 150 ms and 0 beyond |
| ResultDetail.MiniBarsMonotone | app/src/main/java/com/mobix/speedtest/ui/screens/result/ResultDetailScreen.kt:281-284 | faster transfers never shorten their bars; a higher ping never lengthens the latency bar |
| Navigation.NavigateSingleTop | app/src/main/java/com/mobix/speedtest/ui/navigation/AppNavigation.kt:42-44 | the route ends on top; a new entry is pushed exactly when it was not already on top |
| Navigation.AfterTestingChanged | app/src/main/java/com/mobix/speedtest/ui/navigation/AppNavigation.kt:29-31 | a starting test clears the flag; otherwise it is kept |
| Navigation.HomeNavigation.constructor | app/src/main/java/com/mobix/speedtest/ui/navigation/AppNavigation.kt:26 | the flag starts cleared; the back stack holds the home route |
| Navigation.HomeNavigation.OnTestingChanged | app/src/main/java/com/mobix/speedtest/ui/navigation/AppNavigation.kt:29-31 | the flag is cleared when testing starts; nothing else changes |
| Navigation.HomeNavigation.OnResultChanged | app/src/main/java/com/mobix/speedtest/ui/navigation/AppNavigation.kt:34-46 | navigates exactly when not testing, the result is valid (present, dl > 0 or ul > 0, ping > 0) and the flag is unset; navigating sets the flag |
| Navigation.Navigations | app/src/main/java/com/mobix/speedtest/ui/navigation/AppNavigation.kt:29-46 | a run of events navigates at most once per event |
| Navigation.SetFlagBlocks | app/src/main/java/com/mobix/speedtest/ui/navigation/AppNavigation.kt:39 | once the flag is set and no test starts, nothing navigates |
| Navigation.AtMostOneNavigationPerTest | app/src/main/java/com/mobix/speedtest/ui/navigation/AppNavigation.kt:29-46 | between two test starts the result screen is opened at most once |
| Navigation.NeverWhileTesting | app/src/main/java/com/mobix/speedtest/ui/navigation/AppNavigation.kt:39 | no navigation while a test is running |
| Navigation.NewTestNavigatesAgain | app/src/main/java/com/mobix/speedtest/ui/navigation/AppNavigation.kt:29-46 | a new test ending with a valid result navigates again, whatever the flag was |
| Navigation.SingleTopIdempotent | app/src/main/java/com/mobix/speedtest/ui/navigation/AppNavigation.kt:42-44 | navigating to the same route twice equals navigating once |

## Left out

- Socket, UDP and HTTP I/O (`udpPoke`, `tcpTry`, OkHttp calls, the file read of `/proc/net/arp`): their outcomes are parameters; a probe is recorded as its address and two TCP ports.
- `JSONObject` is a library call: its result is the `Json` value (malformed, or the string form of each field); a JSON `null` field is modelled as absent.
- Concurrency: the coroutine workers, `AtomicLong` counters, `async`/`awaitAll` scheduling and cancellation, and an overlapping second `loadData`; batches are modelled as the groups awaited in order.
- Timing: `SystemClock`, `delay`, `System.nanoTime` and `Date()` are inputs (tick readings, RTTs, clock values); `nowString` formatting is an input text.
- Floating point: `Double` is `real`; `rtts.average()` of an empty list (NaN) is 0; `roundToInt` is rounding half up; the `Float` conversion of the bar fractions is not modelled.
- Case-insensitive matching and `lowercase`/`uppercase` cover ASCII letters only; `toIntOrNull` accepts ASCII digits only.
- IpInfo.Find: the key is taken as literal text, not as a regular expression (the callers pass "ip" and "org").
- The Wi-Fi details (`WifiTechDetails`, `getWifiAdvancedDetails`) and `NetworkUtils.getLocalIpAddress`/`getRouterHostName`: the utilities are not part of this model; their results are inputs and the `wifi` field is not modelled.
- `isOnWifi` and `getDhcpInfoSafe`'s platform query: connectivity and the lease are inputs.
- Which call inside `loadData` throws is an input flag; the exception's type and message are not modelled.
- SubnetProbe.ActiveProbeRange: uses an unbounded counter; the 32-bit wrap of `i += step` is shown separately (Findings).
- SubnetProbe.ProbeCountBound: the 1023 bound is stated only for leases where `end - start + 1` fits an `Int`. Where that width wraps, `hostCount` is not the width and the stride can be 1. `SubnetProbe.FullMaskNeverEnds` shows one such lease (netmask 255.255.255.255 at local 0x80000000): there `end` is `Int.MAX_VALUE`, so the source's `while (i <= end)` never ends.
- SpeedTest.StartSpeedTest: takes exactly 15 ping outcomes, the fixed `attempts = 15` of the source.
- SpeedTest.ServerErrorCode: stated for status codes below 1000 only, which covers every HTTP status.
- Compose UI, animation, texts, colours and icons: tags and icons are enum values; localised strings, `buildShareText` and the clipboard are left out.
- Persistence and wiring (DAO, database, dependency injection, use cases) and the heat-map feature.
- HomeViewModel: the navigation guard takes its events (`isTesting`, result) as inputs.

## Findings

| source | as written | input that shows it | evidently intended | confidence | as-written member | corrected member |
|---|---|---|---|---|---|---|
| app/src/main/java/com/mobix/speedtest/ui/screens/tools/NetworkToolsViewModel.kt:151-163 | the mask is applied to the little-endian DHCP integer | a lease with netmask 255.255.255.0 (0x00FFFFFF) makes the broadcast negative, so `end < start` and no address is probed | the range of the subnet in host byte order, x.y.z.1 to x.y.z.254 | not executed | SubnetProbe.GenuineMaskProbesNothing | SubnetProbe.HostOrderRangeCoversSubnet |
| app/src/main/java/com/mobix/speedtest/ui/screens/tools/NetworkToolsViewModel.kt:201-227 | the probe counter `i += step` is a 32-bit `Int` | local 192.168.1.10 with netmask 0.0.0.128 gives start 1, end `Int.MAX_VALUE - 1`, step 4194303; after 2147483137 the counter wraps to a negative value below `end` and the loop goes on | the loop stops after the last target not above `end` | not executed | SubnetProbe.ProbeCounterWrapsPastEnd | SubnetProbe.ActiveProbeRange |
| app/src/main/java/com/mobix/speedtest/ui/screens/tools/NetworkToolsScreen.kt:499-504 | "phone" is tested before "iphone" | a device named "iPhone" gets the Android-phone icon, so the iPhone branch is never reached for it | iPhone and iPad names get the iPhone icon | not executed | ToolsScreen.IphoneGetsAndroidIcon | ToolsScreen.IconForIntended |
