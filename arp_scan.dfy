/**
 * The device list of the network-tools screen: parsing `/proc/net/arp` rows
 * (NetworkToolsViewModel's `readArpTable`), the fallback device name
 * (`buildFallbackName`) and the filter → distinct → name → sort pipeline at
 * the end of `scanDevicesUsingRealSubnet`.
 */
module ArpScan {
  import opened Wrappers
  import opened Sequences
  import opened Int32
  import opened KotlinText
  import opened IpAddress

  /** One row of the kernel's ARP table that the scanner keeps. */
  datatype ArpEntry = ArpEntry(ip: string, mac: string)

  /** A device shown on the screen (utils' `DeviceInfo`). */
  datatype DeviceInfo = DeviceInfo(name: string, ip: string)

  const ZERO_MAC: string := "00:00:00:00:00:00"

  /* ----------------------------- splitting on \s+ ----------------------------- */

  predicate NoRegexSpace(s: string) {
    forall i :: 0 <= i < |s| ==> !IsRegexSpace(s[i])
  }

  /** The rest of `s` after its leading run of `\s` characters. */
  function DropSpaces(s: string): (r: string)
    ensures |r| <= |s| && r == s[|s| - |r|..]
    ensures r == [] || !IsRegexSpace(r[0])
  {
    if s != [] && IsRegexSpace(s[0]) then DropSpaces(s[1..]) else s
  }

  /**
   * `s.split(Regex("\\s+"))`: the fields between maximal runs of `\s`. A run at
   * the start or the end yields an empty first or last field, and "" splits
   * into [""].
   */
  function SplitWs(s: string): (r: seq<string>)
    ensures |r| >= 1
    ensures forall k :: 0 <= k < |r| ==> NoRegexSpace(r[k])
    decreases |s|
  {
    if s == [] then [""]
    else if IsRegexSpace(s[0]) then [""] + SplitWs(DropSpaces(s[1..]))
    else
      var rest := SplitWs(s[1..]);
      [[s[0]] + rest[0]] + rest[1..]
  }

  /** A non-empty run of `\s` characters, such as the kernel pads its columns with. */
  predicate IsSeparator(sep: string) {
    sep != [] && forall i :: 0 <= i < |sep| ==> IsRegexSpace(sep[i])
  }

  /** Fields written one after the other with `seps[k]` between field `k` and field `k + 1`. */
  function JoinWith(fields: seq<string>, seps: seq<string>): string
    requires |fields| >= 1 && |seps| == |fields| - 1
  {
    if |fields| == 1 then fields[0] else fields[0] + seps[0] + JoinWith(fields[1..], seps[1..])
  }

  lemma {:induction false} SplitWsField(a: string)
    requires NoRegexSpace(a)
    ensures SplitWs(a) == [a]
  {
    if a != [] {
      SplitWsField(a[1..]);
      assert [a[0]] + a[1..] == a;
    }
  }

  /** A run of `\s` in front of text that does not start with one is dropped whole. */
  lemma {:induction false} DropSpacesOver(sp: string, b: string)
    requires forall i :: 0 <= i < |sp| ==> IsRegexSpace(sp[i])
    requires b == [] || !IsRegexSpace(b[0])
    ensures DropSpaces(sp + b) == b
  {
    if sp == [] {
      assert sp + b == b;
    } else {
      assert (sp + b)[1..] == sp[1..] + b;
      DropSpacesOver(sp[1..], b);
    }
  }

  /** A separator in front of a field opens an empty field. */
  lemma SplitWsSeparator(sep: string, b: string)
    requires IsSeparator(sep) && (b == [] || !IsRegexSpace(b[0]))
    ensures SplitWs(sep + b) == [""] + SplitWs(b)
  {
    assert (sep + b)[1..] == sep[1..] + b;
    DropSpacesOver(sep[1..], b);
  }

  lemma {:induction false} SplitWsJoin(a: string, sep: string, b: string)
    requires NoRegexSpace(a) && IsSeparator(sep) && (b == [] || !IsRegexSpace(b[0]))
    ensures SplitWs(a + sep + b) == [a] + SplitWs(b)
    decreases |a|
  {
    if a == [] {
      assert a + sep + b == sep + b;
      SplitWsSeparator(sep, b);
    } else {
      SplitWsJoin(a[1..], sep, b);
      SplitWsJoinStep(a, sep, b);
    }
  }

  lemma SplitWsJoinStep(a: string, sep: string, b: string)
    requires a != [] && !IsRegexSpace(a[0])
    requires SplitWs(a[1..] + sep + b) == [a[1..]] + SplitWs(b)
    ensures SplitWs(a + sep + b) == [a] + SplitWs(b)
  {
    var t := a[1..] + sep + b;
    HeadAndTail(a);
    AppendAssoc([a[0]], a[1..], sep);
    AppendAssoc([a[0]], a[1..] + sep, b);
    SplitWsCons(a[0], t);
    var rest := SplitWs(t);
    assert rest[0] == a[1..] && rest[1..] == SplitWs(b);
  }

  /** A character other than `\s` joins the first field. */
  lemma SplitWsCons(c: char, t: string)
    requires !IsRegexSpace(c)
    ensures SplitWs([c] + t) == [[c] + SplitWs(t)[0]] + SplitWs(t)[1..]
  {
    assert ([c] + t)[1..] == t;
  }

  /** Splitting non-empty fields joined by any runs of `\s` gives the fields back. */
  lemma {:induction false} SplitWsJoinWith(fields: seq<string>, seps: seq<string>)
    requires |fields| >= 1 && |seps| == |fields| - 1
    requires forall k :: 0 <= k < |fields| ==> fields[k] != [] && NoRegexSpace(fields[k])
    requires forall k :: 0 <= k < |seps| ==> IsSeparator(seps[k])
    ensures SplitWs(JoinWith(fields, seps)) == fields
  {
    if |fields| == 1 {
      SplitWsField(fields[0]);
    } else {
      SplitWsJoinWith(fields[1..], seps[1..]);
      var b := JoinWith(fields[1..], seps[1..]);
      assert b == [] || !IsRegexSpace(b[0]) by {
        JoinWithStart(fields[1..], seps[1..]);
      }
      assert IsSeparator(seps[0]);
      SplitWsJoin(fields[0], seps[0], b);
      assert [fields[0]] + fields[1..] == fields;
    }
  }

  lemma JoinWithStart(fields: seq<string>, seps: seq<string>)
    requires |fields| >= 1 && |seps| == |fields| - 1 && fields[0] != []
    ensures JoinWith(fields, seps) != [] && JoinWith(fields, seps)[0] == fields[0][0]
  {
  }

  /* ----------------------------- one ARP row ----------------------------- */

  predicate IsLowerCase(s: string) {
    forall i :: 0 <= i < |s| ==> !('A' <= s[i] <= 'Z')
  }

  /** What every kept row satisfies. */
  predicate ValidEntry(e: ArpEntry) {
    && e.ip != [] && !IsBlank(e.ip) && Trim(e.ip) == e.ip && NoRegexSpace(e.ip)
    && ':' in e.mac && e.mac != ZERO_MAC && IsLowerCase(e.mac) && NoRegexSpace(e.mac)
  }

  /**
   * One line of the table: field 0 is the IP and field 3 the hardware address.
   * The row is kept only with at least four fields, a non-blank IP and a
   * lowercased address that contains ':' and is not all zeros.
   */
  function ParseArpLine(line: string): (r: Option<ArpEntry>)
    ensures r.Some? ==> ValidEntry(r.value)
    ensures |SplitWs(line)| < 4 ==> r.None?
    ensures var parts := SplitWs(line);
      |parts| >= 4 ==>
        (r.Some? <==> !IsBlank(Trim(parts[0])) && ':' in Lower(Trim(parts[3])) && Lower(Trim(parts[3])) != ZERO_MAC)
    ensures r.Some? ==> r.value == ArpEntry(Trim(SplitWs(line)[0]), Lower(Trim(SplitWs(line)[3])))
  {
    var parts := SplitWs(line);
    if |parts| < 4 then None
    else
      var ip := Trim(parts[0]);
      var mac := Lower(Trim(parts[3]));
      if !IsBlank(ip) && ':' in mac && mac != ZERO_MAC then
        KeptFieldsValid(parts[0], parts[3]);
        Some(ArpEntry(ip, mac))
      else None
  }

  lemma KeptFieldsValid(ipField: string, macField: string)
    requires NoRegexSpace(ipField) && NoRegexSpace(macField)
    requires !IsBlank(Trim(ipField))
    requires ':' in Lower(Trim(macField)) && Lower(Trim(macField)) != ZERO_MAC
    ensures ValidEntry(ArpEntry(Trim(ipField), Lower(Trim(macField))))
  {
    TrimIdempotent(ipField);
    SliceNoRegexSpace(ipField, Trim(ipField));
    SliceNoRegexSpace(macField, Trim(macField));
    LowerKeepsShape(Trim(macField));
  }

  lemma LowerKeepsShape(s: string)
    requires NoRegexSpace(s)
    ensures IsLowerCase(Lower(s)) && NoRegexSpace(Lower(s))
  {
    forall i | 0 <= i < |s| ensures !('A' <= Lower(s)[i] <= 'Z') && !IsRegexSpace(Lower(s)[i]) {
      assert Lower(s)[i] == LowerChar(s[i]);
    }
  }

  lemma SliceNoRegexSpace(s: string, t: string)
    requires NoRegexSpace(s)
    requires exists a, b :: 0 <= a <= b <= |s| && t == s[a..b]
    ensures NoRegexSpace(t)
  {
    var a, b :| 0 <= a <= b <= |s| && t == s[a..b];
    assert forall i :: 0 <= i < |t| ==> t[i] == s[a + i];
  }

  lemma LowerOfLowerCase(s: string)
    requires IsLowerCase(s)
    ensures Lower(s) == s
  {
  }

  /**
   * A row of at least four fields separated by runs of `\s`, as the kernel
   * writes them, keeps exactly the rows whose trimmed IP field is not blank and
   * whose lowered address field holds ':' and is not all zeros.
   */
  lemma ParseJoinedRow(fields: seq<string>, seps: seq<string>)
    requires |fields| >= 4 && |seps| == |fields| - 1
    requires forall k :: 0 <= k < |fields| ==> fields[k] != [] && NoRegexSpace(fields[k])
    requires forall k :: 0 <= k < |seps| ==> IsSeparator(seps[k])
    ensures ParseArpLine(JoinWith(fields, seps)) ==
      if !IsBlank(Trim(fields[0])) && ':' in Lower(Trim(fields[3])) && Lower(Trim(fields[3])) != ZERO_MAC
      then Some(ArpEntry(Trim(fields[0]), Lower(Trim(fields[3]))))
      else None
  {
    SplitWsJoinWith(fields, seps);
  }

  /** Such a row whose IP and address are already in the kept form parses to exactly them. */
  lemma ParseFormattedRow(fields: seq<string>, seps: seq<string>)
    requires |fields| >= 4 && |seps| == |fields| - 1
    requires forall k :: 0 <= k < |fields| ==> fields[k] != [] && NoRegexSpace(fields[k])
    requires forall k :: 0 <= k < |seps| ==> IsSeparator(seps[k])
    requires ValidEntry(ArpEntry(fields[0], fields[3]))
    requires Trim(fields[3]) == fields[3]
    ensures ParseArpLine(JoinWith(fields, seps)) == Some(ArpEntry(fields[0], fields[3]))
  {
    ParseJoinedRow(fields, seps);
    LowerOfLowerCase(fields[3]);
  }

  /** A line that starts with whitespace has an empty first field and is dropped. */
  lemma IndentedLineRejected(line: string)
    requires line != [] && IsRegexSpace(line[0])
    ensures ParseArpLine(line).None?
  {
    assert SplitWs(line)[0] == "";
  }

  /* ----------------------------- the table ----------------------------- */

  /** `mapNotNull(f)`: the present results of `f` over `xs`, in order. */
  function MapNotNull<X, Y>(xs: seq<X>, f: X -> Option<Y>): (r: seq<Y>)
    ensures |r| <= |xs|
  {
    if xs == [] then []
    else
      var init := MapNotNull(xs[..|xs| - 1], f);
      match f(xs[|xs| - 1])
      case Some(y) => init + [y]
      case None => init
  }

  lemma {:induction false} MapNotNullAppend<X, Y>(a: seq<X>, b: seq<X>, f: X -> Option<Y>)
    ensures MapNotNull(a + b, f) == MapNotNull(a, f) + MapNotNull(b, f)
    decreases |b|
  {
    if b == [] {
      assert a + b == a;
    } else {
      var b' := b[..|b| - 1];
      assert (a + b)[..|a + b| - 1] == a + b';
      assert (a + b)[|a + b| - 1] == b[|b| - 1];
      MapNotNullAppend(a, b', f);
    }
  }

  lemma {:induction false} MapNotNullSource<X, Y>(xs: seq<X>, f: X -> Option<Y>, k: nat)
    requires k < |MapNotNull(xs, f)|
    ensures exists j :: 0 <= j < |xs| && f(xs[j]) == Some(MapNotNull(xs, f)[k])
  {
    var init := xs[..|xs| - 1];
    if k < |MapNotNull(init, f)| {
      MapNotNullSource(init, f, k);
      var j :| 0 <= j < |init| && f(init[j]) == Some(MapNotNull(init, f)[k]);
      assert xs[j] == init[j];
    } else {
      assert f(xs[|xs| - 1]) == Some(MapNotNull(xs, f)[k]);
    }
  }

  /** The rows kept from `lines`, in their order. */
  function ArpEntries(lines: seq<string>): seq<ArpEntry> {
    MapNotNull(lines, ParseArpLine)
  }

  /** Rows are parsed independently: the table of `a + b` is the table of `a` followed by that of `b`. */
  lemma ArpEntriesAppend(a: seq<string>, b: seq<string>)
    ensures ArpEntries(a + b) == ArpEntries(a) + ArpEntries(b)
  {
    MapNotNullAppend(a, b, ParseArpLine);
  }

  /** Every kept row is valid and is the parse of one of the lines. */
  lemma ArpEntriesValid(lines: seq<string>, k: nat)
    requires k < |ArpEntries(lines)|
    ensures ValidEntry(ArpEntries(lines)[k])
    ensures exists j :: 0 <= j < |lines| && ParseArpLine(lines[j]) == Some(ArpEntries(lines)[k])
  {
    MapNotNullSource(lines, ParseArpLine, k);
  }

  /** Parsing one more line extends the rows by that line's entry, if any. */
  lemma MapNotNullPrefix<X, Y>(xs: seq<X>, j: nat, f: X -> Option<Y>)
    requires j < |xs|
    ensures MapNotNull(xs[..j + 1], f) == MapNotNull(xs[..j], f) + (if f(xs[j]).Some? then [f(xs[j]).value] else [])
  {
    assert xs[..j + 1][..j] == xs[..j];
  }

  /** The file as the reader meets it. */
  datatype ArpFile = Missing | Unreadable | Readable(lines: seq<string>)

  /**
   * `readArpTable`: a missing file or a read error gives no rows; otherwise the
   * first line (the header) is skipped and every further line is parsed in turn.
   */
  method ReadArpTable(file: ArpFile) returns (result: seq<ArpEntry>)
    ensures file.Readable? && file.lines != [] ==> result == ArpEntries(file.lines[1..])
    ensures !file.Readable? || file.lines == [] ==> result == []
  {
    result := [];
    if !file.Readable? || file.lines == [] {
      return;
    }
    var rows := file.lines[1..];
    var j := 0;
    while j < |rows|
      invariant 0 <= j <= |rows|
      invariant result == ArpEntries(rows[..j])
    {
      var row := ParseArpLine(rows[j]);
      MapNotNullPrefix(rows, j, ParseArpLine);
      if row.Some? {
        result := result + [row.value];
      }
      j := j + 1;
    }
    assert rows[..j] == rows;
  }

  /* ----------------------------- names ----------------------------- */

  /** The last five characters of a hardware address with ':' removed, uppercased. */
  function MacSuffix(mac: string): (r: string)
    ensures |r| <= 5 && ':' !in r
  {
    Upper(RemoveChar(TakeLast(mac, 5), ':'))
  }

  /** `buildFallbackName`: the address suffix and the part of the IP after its last '.'. */
  function FallbackName(mac: string, ip: string): (name: string)
    ensures |name| > 9 && name[..9] == "Device • " && name[|name| - 1] == ')'
    ensures name != "Router"
  {
    var name := "Device • " + MacSuffix(mac) + " (#" + SubstringAfterLast(ip, '.', ip) + ")";
    assert name[..9] == "Device • ";
    assert name[0] != "Router"[0];
    name
  }

  /** For an address ending in `…hh:ll` the suffix is the four digits `HHLL`, uppercased. */
  lemma MacSuffixOf(prefix: string, a: char, b: char, c: char, d: char)
    requires a != ':' && b != ':' && c != ':' && d != ':'
    ensures MacSuffix(prefix + [a, b, ':', c, d]) == [UpperChar(a), UpperChar(b), UpperChar(c), UpperChar(d)]
  {
    var tail := [a, b, ':', c, d];
    assert TakeLast(prefix + tail, 5) == tail;
    assert RemoveChar([d], ':') == [d];
    assert RemoveChar([c, d], ':') == [c, d];
    assert RemoveChar([':', c, d], ':') == [c, d];
    assert RemoveChar([b, ':', c, d], ':') == [b, c, d];
    assert RemoveChar(tail, ':') == [a, b, c, d];
  }

  /** For a dotted quad the part after the last '.' is the quad's last number. */
  lemma LastPartOfQuad(x: Int)
    ensures SubstringAfterLast(IntToIp(x), '.', IntToIp(x)) == NatToString(x.b3)
  {
    var p := NatToString(x.b0) + "." + NatToString(x.b1) + "." + NatToString(x.b2);
    var q := NatToString(x.b3);
    NoDotInDigits(q);
    assert IntToIp(x) == p + ['.'] + q;
    LastIndexAfterSeparator(p, '.', q);
    assert (p + ['.'] + q)[|p| + 1..] == q;
  }

  /** Text without a '.' is used whole. */
  lemma LastPartWithoutDot(ip: string)
    requires '.' !in ip
    ensures SubstringAfterLast(ip, '.', ip) == ip
  {
  }

  /** The name a scanned entry receives: the gateway is "Router". */
  function NameFor(e: ArpEntry, gatewayIp: string): (d: DeviceInfo)
    ensures d.ip == e.ip
    ensures d.name == "Router" <==> e.ip == gatewayIp
    ensures e.ip != gatewayIp ==> d.name == FallbackName(e.mac, e.ip)
  {
    DeviceInfo(if e.ip == gatewayIp then "Router" else FallbackName(e.mac, e.ip), e.ip)
  }

  /**
   * A device other than the gateway, at a printed address and with a hardware
   * address ending in `…hh:ll`, is named `Device • HHLL (#<last octet>)`.
   */
  lemma DeviceNameOf(x: Int, prefix: string, a: char, b: char, c: char, d: char, gatewayIp: string)
    requires a != ':' && b != ':' && c != ':' && d != ':'
    requires IntToIp(x) != gatewayIp
    ensures NameFor(ArpEntry(IntToIp(x), prefix + [a, b, ':', c, d]), gatewayIp).name
      == "Device • " + [UpperChar(a), UpperChar(b), UpperChar(c), UpperChar(d)] + " (#" + NatToString(x.b3) + ")"
  {
    MacSuffixOf(prefix, a, b, c, d);
    LastPartOfQuad(x);
  }

  /* ----------------------------- the pipeline ----------------------------- */

  /** `filter { it.ip != ip }` */
  function WithoutIp(es: seq<ArpEntry>, ip: string): (r: seq<ArpEntry>)
    ensures forall e :: e in r <==> e in es && e.ip != ip
  {
    if es == [] then []
    else WithoutIp(es[..|es| - 1], ip) + (if es[|es| - 1].ip != ip then [es[|es| - 1]] else [])
  }

  /** The filter keeps the order of its input: it distributes over concatenation. */
  lemma {:induction false} WithoutIpAppend(a: seq<ArpEntry>, b: seq<ArpEntry>, ip: string)
    ensures WithoutIp(a + b, ip) == WithoutIp(a, ip) + WithoutIp(b, ip)
    decreases |b|
  {
    if b == [] {
      assert a + b == a;
    } else {
      var b' := b[..|b| - 1];
      assert (a + b)[..|a + b| - 1] == a + b';
      assert (a + b)[|a + b| - 1] == b[|b| - 1];
      WithoutIpAppend(a, b', ip);
    }
  }

  /** The IPs of a list. */
  function Ips(es: seq<ArpEntry>): (r: seq<string>)
    ensures |r| == |es| && forall k :: 0 <= k < |es| ==> r[k] == es[k].ip
  {
    seq(|es|, k requires 0 <= k < |es| => es[k].ip)
  }

  /** `distinctBy { it.ip }`: the first entry of each IP, in order. */
  function DistinctByIp(es: seq<ArpEntry>): (r: seq<ArpEntry>)
    ensures |r| <= |es|
  {
    if es == [] then []
    else
      var r := DistinctByIp(es[..|es| - 1]);
      var e := es[|es| - 1];
      if e.ip in Ips(r) then r else r + [e]
  }

  /** Entry `k` is the first with its IP. */
  predicate FirstOfIp(es: seq<ArpEntry>, k: int) {
    0 <= k < |es| && forall j :: 0 <= j < k ==> es[j].ip != es[k].ip
  }

  predicate UniqueIps(ips: seq<string>) {
    forall i, j :: 0 <= i < j < |ips| ==> ips[i] != ips[j]
  }

  /** The IPs kept are exactly the IPs of the input. */
  lemma {:induction false} DistinctByIpIps(es: seq<ArpEntry>, ip: string)
    ensures ip in Ips(DistinctByIp(es)) <==> ip in Ips(es)
  {
    if es != [] {
      var init := es[..|es| - 1];
      DistinctByIpIps(init, ip);
      assert Ips(es) == Ips(init) + [es[|es| - 1].ip];
      var r := DistinctByIp(init);
      assert Ips(r + [es[|es| - 1]]) == Ips(r) + [es[|es| - 1].ip];
    }
  }

  /** No IP appears twice in the result. */
  lemma {:induction false} DistinctByIpUnique(es: seq<ArpEntry>)
    ensures UniqueIps(Ips(DistinctByIp(es)))
  {
    if es != [] {
      var init := es[..|es| - 1];
      DistinctByIpUnique(init);
      var r := DistinctByIp(init);
      var e := es[|es| - 1];
      assert Ips(r + [e]) == Ips(r) + [e.ip];
    }
  }

  /** The result holds exactly the entries that are the first with their IP. */
  lemma DistinctByIpFirst(es: seq<ArpEntry>, e: ArpEntry)
    ensures e in DistinctByIp(es) <==> exists k :: FirstOfIp(es, k) && es[k] == e
  {
    if e in DistinctByIp(es) {
      DistinctByIpSound(es, e);
    }
    if exists k :: FirstOfIp(es, k) && es[k] == e {
      var k :| FirstOfIp(es, k) && es[k] == e;
      DistinctByIpComplete(es, k);
    }
  }

  /** Every entry kept is the first with its IP. */
  lemma {:induction false} DistinctByIpSound(es: seq<ArpEntry>, e: ArpEntry)
    requires e in DistinctByIp(es)
    ensures exists k :: FirstOfIp(es, k) && es[k] == e
  {
    var n := |es| - 1;
    var init := es[..n];
    var r := DistinctByIp(init);
    if e in r {
      DistinctByIpSound(init, e);
      var k :| FirstOfIp(init, k) && init[k] == e;
      FirstOfIpPrefix(es, n, k);
    } else {
      assert e == es[n] && e.ip !in Ips(r);
      DistinctByIpIps(init, e.ip);
      assert FirstOfIp(es, n) by {
        forall j | 0 <= j < n ensures es[j].ip != es[n].ip {
          assert Ips(init)[j] == es[j].ip;
        }
      }
    }
  }

  /** Every entry that is the first with its IP is kept. */
  lemma {:induction false} DistinctByIpComplete(es: seq<ArpEntry>, k: int)
    requires FirstOfIp(es, k)
    ensures es[k] in DistinctByIp(es)
  {
    var n := |es| - 1;
    var init := es[..n];
    var r := DistinctByIp(init);
    if k < n {
      FirstOfIpPrefix(es, n, k);
      DistinctByIpComplete(init, k);
    } else {
      assert es[n].ip !in Ips(init) by {
        forall j | 0 <= j < n ensures Ips(init)[j] != es[n].ip {
          assert es[j].ip != es[n].ip;
        }
      }
      DistinctByIpIps(init, es[n].ip);
    }
  }

  /** Being first with its IP depends only on the entries before. */
  lemma FirstOfIpPrefix(es: seq<ArpEntry>, n: int, k: int)
    requires 0 <= k < n <= |es|
    ensures FirstOfIp(es, k) <==> FirstOfIp(es[..n], k)
  {
  }

  function NameAll(es: seq<ArpEntry>, gatewayIp: string): (r: seq<DeviceInfo>)
    ensures |r| == |es| && forall k :: 0 <= k < |es| ==> r[k] == NameFor(es[k], gatewayIp)
  {
    seq(|es|, k requires 0 <= k < |es| => NameFor(es[k], gatewayIp))
  }

  /** `lastOctetOrMax(it.ip)`, the sort key. */
  function Key(d: DeviceInfo): int {
    LastOctetOrMax(d.ip)
  }

  /** Inserts `d` after every element whose key is not larger, which keeps the order stable. */
  function InsertBy(s: seq<DeviceInfo>, d: DeviceInfo, key: DeviceInfo -> int): (r: seq<DeviceInfo>)
    ensures multiset(r) == multiset(s) + multiset{d}
  {
    if s == [] || key(s[|s| - 1]) <= key(d) then s + [d]
    else
      var init, last := s[..|s| - 1], s[|s| - 1];
      assert s == init + [last];
      InsertBy(init, d, key) + [last]
  }

  /** `sortedBy(key)`: a stable insertion sort. */
  function SortBy(ds: seq<DeviceInfo>, key: DeviceInfo -> int): (r: seq<DeviceInfo>)
    ensures multiset(r) == multiset(ds)
  {
    if ds == [] then []
    else
      assert ds == ds[..|ds| - 1] + [ds[|ds| - 1]];
      InsertBy(SortBy(ds[..|ds| - 1], key), ds[|ds| - 1], key)
  }

  predicate SortedBy(ds: seq<DeviceInfo>, key: DeviceInfo -> int) {
    forall i, j :: 0 <= i < j < |ds| ==> key(ds[i]) <= key(ds[j])
  }

  /** The larger of `d`'s key and the last key of `s`. */
  function LastKey(s: seq<DeviceInfo>, d: DeviceInfo, key: DeviceInfo -> int): int {
    if s != [] && key(s[|s| - 1]) > key(d) then key(s[|s| - 1]) else key(d)
  }

  lemma {:induction false} InsertBySorted(s: seq<DeviceInfo>, d: DeviceInfo, key: DeviceInfo -> int)
    requires SortedBy(s, key)
    ensures SortedBy(InsertBy(s, d, key), key)
    ensures InsertBy(s, d, key) != [] && key(InsertBy(s, d, key)[|InsertBy(s, d, key)| - 1]) == LastKey(s, d, key)
  {
    if s != [] && key(s[|s| - 1]) > key(d) {
      var init, last := s[..|s| - 1], s[|s| - 1];
      assert SortedBy(init, key);
      InsertBySorted(init, d, key);
      var t := InsertBy(init, d, key);
      assert LastKey(init, d, key) <= key(last) by {
        if init != [] { assert key(init[|init| - 1]) <= key(last); }
      }
      forall i | 0 <= i < |t| ensures key(t[i]) <= key(last) {
        assert key(t[i]) <= key(t[|t| - 1]);
      }
      assert InsertBy(s, d, key) == t + [last];
    }
  }

  /** The sort's result is ordered by the key. */
  lemma {:induction false} SortBySorted(ds: seq<DeviceInfo>, key: DeviceInfo -> int)
    ensures SortedBy(SortBy(ds, key), key)
  {
    if ds != [] {
      SortBySorted(ds[..|ds| - 1], key);
      InsertBySorted(SortBy(ds[..|ds| - 1], key), ds[|ds| - 1], key);
    }
  }

  /** The devices of `ds` whose key is `k`, in their order. */
  function WithKey(ds: seq<DeviceInfo>, key: DeviceInfo -> int, k: int): seq<DeviceInfo> {
    if ds == [] then []
    else WithKey(ds[..|ds| - 1], key, k) + (if key(ds[|ds| - 1]) == k then [ds[|ds| - 1]] else [])
  }

  lemma {:induction false} WithKeyAppend(a: seq<DeviceInfo>, b: seq<DeviceInfo>, key: DeviceInfo -> int, k: int)
    ensures WithKey(a + b, key, k) == WithKey(a, key, k) + WithKey(b, key, k)
    decreases |b|
  {
    if b == [] {
      assert a + b == a;
    } else {
      assert (a + b)[..|a + b| - 1] == a + b[..|b| - 1];
      WithKeyAppend(a, b[..|b| - 1], key, k);
    }
  }

  lemma WithKeySingle(d: DeviceInfo, key: DeviceInfo -> int, k: int)
    ensures WithKey([d], key, k) == if key(d) == k then [d] else []
  {
    assert [d][..0] == [];
  }

  lemma {:induction false} InsertByStable(s: seq<DeviceInfo>, d: DeviceInfo, key: DeviceInfo -> int, k: int)
    ensures WithKey(InsertBy(s, d, key), key, k) == WithKey(s, key, k) + WithKey([d], key, k)
  {
    if s == [] || key(s[|s| - 1]) <= key(d) {
      WithKeyAppend(s, [d], key, k);
    } else {
      InsertByStable(s[..|s| - 1], d, key, k);
      InsertByStableStep(s, d, key, k);
    }
  }

  lemma InsertByStableStep(s: seq<DeviceInfo>, d: DeviceInfo, key: DeviceInfo -> int, k: int)
    requires s != [] && key(s[|s| - 1]) > key(d)
    requires WithKey(InsertBy(s[..|s| - 1], d, key), key, k) == WithKey(s[..|s| - 1], key, k) + WithKey([d], key, k)
    ensures WithKey(InsertBy(s, d, key), key, k) == WithKey(s, key, k) + WithKey([d], key, k)
  {
    var init, last := s[..|s| - 1], s[|s| - 1];
    var t := InsertBy(init, d, key);
    InsertByUnfold(s, d, key);
    WithKeyAppend(t, [last], key, k);
    WithKeyLast(s, key, k);
    Commute(WithKey(init, key, k), WithKey([d], key, k), WithKey([last], key, k));
  }

  lemma WithKeyLast(s: seq<DeviceInfo>, key: DeviceInfo -> int, k: int)
    requires s != []
    ensures WithKey(s, key, k) == WithKey(s[..|s| - 1], key, k) + WithKey([s[|s| - 1]], key, k)
  {
    WithKeySingle(s[|s| - 1], key, k);
  }

  /** An element with a larger key than `d` stays behind it. */
  lemma InsertByUnfold(s: seq<DeviceInfo>, d: DeviceInfo, key: DeviceInfo -> int)
    requires s != [] && key(s[|s| - 1]) > key(d)
    ensures InsertBy(s, d, key) == InsertBy(s[..|s| - 1], d, key) + [s[|s| - 1]]
  {
  }

  /** Appending two lists of which one is empty, in either order, gives the same list. */
  lemma Commute<T>(a: seq<T>, x: seq<T>, y: seq<T>)
    requires x == [] || y == []
    ensures (a + x) + y == (a + y) + x
  {
    if x == [] {
      assert a + x == a;
      assert (a + y) + x == a + y;
    } else {
      assert a + y == a;
      assert (a + x) + y == a + x;
    }
  }

  /** Stability: the devices sharing a key come out in their input order. */
  lemma {:induction false} SortByStable(ds: seq<DeviceInfo>, key: DeviceInfo -> int, k: int)
    ensures WithKey(SortBy(ds, key), key, k) == WithKey(ds, key, k)
  {
    if ds != [] {
      var init, last := ds[..|ds| - 1], ds[|ds| - 1];
      SortByStable(init, key, k);
      InsertByStable(SortBy(init, key), last, key, k);
    }
  }

  /** The device list of `scanDevicesUsingRealSubnet`, from the rows read after probing. */
  function Devices(arp: seq<ArpEntry>, localIp: string, gatewayIp: string): seq<DeviceInfo> {
    SortBy(NameAll(Kept(arp, localIp), gatewayIp), Key)
  }

  /** Sorting moves devices without adding or losing any. */
  lemma SortByMembers(ds: seq<DeviceInfo>, key: DeviceInfo -> int, d: DeviceInfo)
    ensures d in SortBy(ds, key) <==> d in ds
  {
    var r := SortBy(ds, key);
    assert d in r <==> d in multiset(r);
    assert d in ds <==> d in multiset(ds);
  }

  /** The rows that reach the naming step: valid, first per IP, not the local address. */
  function Kept(arp: seq<ArpEntry>, localIp: string): seq<ArpEntry> {
    WithoutIp(DistinctByIp(WithoutIp(arp, "0.0.0.0")), localIp)
  }

  lemma KeptFromTable(arp: seq<ArpEntry>, localIp: string, e: ArpEntry)
    requires e in Kept(arp, localIp)
    ensures e in arp && e.ip != "0.0.0.0" && e.ip != localIp
  {
    var z := WithoutIp(arp, "0.0.0.0");
    assert e in DistinctByIp(z);
    DistinctByIpFirst(z, e);
    var j :| FirstOfIp(z, j) && z[j] == e;
    assert e in z;
  }

  lemma KeptCoversTable(arp: seq<ArpEntry>, localIp: string, e: ArpEntry)
    requires e in arp && e.ip != "0.0.0.0" && e.ip != localIp
    ensures exists v :: v in Kept(arp, localIp) && v.ip == e.ip
  {
    var z := WithoutIp(arp, "0.0.0.0");
    var valid := DistinctByIp(z);
    assert e in z;
    var k :| 0 <= k < |z| && z[k] == e;
    assert Ips(z)[k] == e.ip;
    DistinctByIpIps(z, e.ip);
    var m :| 0 <= m < |valid| && Ips(valid)[m] == e.ip;
    assert valid[m] in Kept(arp, localIp);
  }

  /** An entry that is first with its IP after a filter on IPs was first with it before. */
  lemma {:induction false} FirstOfIpWithoutIp(es: seq<ArpEntry>, ip: string, j: int)
    requires FirstOfIp(WithoutIp(es, ip), j)
    ensures exists k :: FirstOfIp(es, k) && es[k] == WithoutIp(es, ip)[j]
    decreases |es|
  {
    var n := |es| - 1;
    var init := es[..n];
    var zi := WithoutIp(init, ip);
    var z := WithoutIp(es, ip);
    assert z == zi + (if es[n].ip != ip then [es[n]] else []);
    if j < |zi| {
      assert z[j] == zi[j];
      assert FirstOfIp(zi, j) by {
        forall i | 0 <= i < j ensures zi[i].ip != zi[j].ip {
          assert z[i] == zi[i];
        }
      }
      FirstOfIpWithoutIp(init, ip, j);
      var k :| FirstOfIp(init, k) && init[k] == zi[j];
      FirstOfIpPrefix(es, n, k);
    } else {
      assert z[j] == es[n];
      forall i | 0 <= i < n ensures es[i].ip != es[n].ip {
        if es[i].ip != ip {
          assert init[i] in zi;
          var m :| 0 <= m < |zi| && zi[m] == init[i];
          assert z[m] == zi[m];
        }
      }
      assert FirstOfIp(es, n);
    }
  }

  /** A row that reaches the naming step is the first row of the table with its IP. */
  lemma KeptFirstOfIp(arp: seq<ArpEntry>, localIp: string, e: ArpEntry)
    requires e in Kept(arp, localIp)
    ensures exists k :: FirstOfIp(arp, k) && arp[k] == e
  {
    var z := WithoutIp(arp, "0.0.0.0");
    assert e in DistinctByIp(z);
    DistinctByIpFirst(z, e);
    var j :| FirstOfIp(z, j) && z[j] == e;
    FirstOfIpWithoutIp(arp, "0.0.0.0", j);
  }

  /**
   * Every listed device is the first table row with its IP, named, and is
   * neither 0.0.0.0 nor the local address.
   */
  lemma DevicesFromTable(arp: seq<ArpEntry>, localIp: string, gatewayIp: string, d: DeviceInfo)
    requires d in Devices(arp, localIp, gatewayIp)
    ensures d.ip != "0.0.0.0" && d.ip != localIp
    ensures exists k :: FirstOfIp(arp, k) && d == NameFor(arp[k], gatewayIp)
    ensures exists e :: e in arp && d == NameFor(e, gatewayIp)
  {
    var kept := Kept(arp, localIp);
    var named := NameAll(kept, gatewayIp);
    SortByMembers(named, Key, d);
    var k :| 0 <= k < |named| && named[k] == d;
    KeptFromTable(arp, localIp, kept[k]);
    KeptFirstOfIp(arp, localIp, kept[k]);
  }

  /** Every other address in the table is listed. */
  lemma DevicesCoverTable(arp: seq<ArpEntry>, localIp: string, gatewayIp: string, e: ArpEntry)
    requires e in arp && e.ip != "0.0.0.0" && e.ip != localIp
    ensures exists d :: d in Devices(arp, localIp, gatewayIp) && d.ip == e.ip
  {
    var kept := Kept(arp, localIp);
    var named := NameAll(kept, gatewayIp);
    KeptCoversTable(arp, localIp, e);
    var v :| v in kept && v.ip == e.ip;
    var n :| 0 <= n < |kept| && kept[n] == v;
    SortByMembers(named, Key, named[n]);
  }

  /** What the scan promises about its list. */
  lemma DevicesProperties(arp: seq<ArpEntry>, localIp: string, gatewayIp: string)
    ensures var r := Devices(arp, localIp, gatewayIp);
      && SortedBy(r, Key)
      && UniqueIpsOf(r)
      && (forall d :: d in r ==> d.ip != "0.0.0.0" && d.ip != localIp)
      && (forall d :: d in r ==> exists e :: e in arp && d == NameFor(e, gatewayIp))
      && (forall d :: d in r ==> exists k :: FirstOfIp(arp, k) && d == NameFor(arp[k], gatewayIp))
      && (forall e :: e in arp && e.ip != "0.0.0.0" && e.ip != localIp ==> exists d :: d in r && d.ip == e.ip)
  {
    var r := Devices(arp, localIp, gatewayIp);
    SortBySorted(NameAll(Kept(arp, localIp), gatewayIp), Key);
    UniqueDevices(arp, localIp, gatewayIp);
    forall d | d in r
      ensures d.ip != "0.0.0.0" && d.ip != localIp && exists e :: e in arp && d == NameFor(e, gatewayIp)
      ensures exists k :: FirstOfIp(arp, k) && d == NameFor(arp[k], gatewayIp)
    {
      DevicesFromTable(arp, localIp, gatewayIp, d);
    }
    forall e | e in arp && e.ip != "0.0.0.0" && e.ip != localIp ensures exists d :: d in r && d.ip == e.ip {
      DevicesCoverTable(arp, localIp, gatewayIp, e);
    }
  }

  predicate UniqueIpsOf(ds: seq<DeviceInfo>) {
    forall i, j :: 0 <= i < j < |ds| ==> ds[i].ip != ds[j].ip
  }

  /** The IPs of the scan result are pairwise distinct, as the screen's IP-keyed list needs. */
  lemma UniqueDevices(arp: seq<ArpEntry>, localIp: string, gatewayIp: string)
    ensures UniqueIpsOf(Devices(arp, localIp, gatewayIp))
  {
    var valid := DistinctByIp(WithoutIp(arp, "0.0.0.0"));
    DistinctByIpUnique(WithoutIp(arp, "0.0.0.0"));
    var kept := WithoutIp(valid, localIp);
    SubsequenceUnique(valid, localIp);
    var named := NameAll(kept, gatewayIp);
    assert UniqueIpsOf(named);
    PermutationUnique(named, SortBy(named, Key));
  }

  lemma {:induction false} SubsequenceUnique(es: seq<ArpEntry>, ip: string)
    requires UniqueIps(Ips(es))
    ensures UniqueIps(Ips(WithoutIp(es, ip)))
  {
    if es != [] {
      var init := es[..|es| - 1];
      assert UniqueIps(Ips(init)) by {
        forall i, j | 0 <= i < j < |init| ensures Ips(init)[i] != Ips(init)[j] {
          assert Ips(es)[i] != Ips(es)[j];
        }
      }
      SubsequenceUnique(init, ip);
      var e := es[|es| - 1];
      var w := WithoutIp(init, ip);
      if e.ip != ip {
        assert Ips(w + [e]) == Ips(w) + [e.ip];
        forall i | 0 <= i < |w| ensures w[i].ip != e.ip {
          assert w[i] in init;
          var k :| 0 <= k < |init| && init[k] == w[i];
          assert Ips(es)[k] != Ips(es)[|es| - 1];
        }
      }
    }
  }

  lemma PermutationUnique(a: seq<DeviceInfo>, b: seq<DeviceInfo>)
    requires UniqueIpsOf(a) && multiset(a) == multiset(b)
    ensures UniqueIpsOf(b)
  {
    forall i, j | 0 <= i < j < |b| ensures b[i].ip != b[j].ip {
      assert b[i] in multiset(a) && b[j] in multiset(a);
      var p :| 0 <= p < |a| && a[p] == b[i];
      var q :| 0 <= q < |a| && a[q] == b[j];
      if b[i] == b[j] {
        MultisetTwo(b, i, j);
        UniqueOnce(a, p);
      } else {
        assert p != q;
      }
    }
  }

  lemma MultisetTwo<T>(s: seq<T>, i: int, j: int)
    requires 0 <= i < j < |s| && s[i] == s[j]
    ensures multiset(s)[s[i]] >= 2
  {
    assert s == s[..i] + [s[i]] + s[i + 1..j] + [s[j]] + s[j + 1..];
  }

  lemma UniqueOnce(a: seq<DeviceInfo>, p: int)
    requires UniqueIpsOf(a) && 0 <= p < |a|
    ensures multiset(a)[a[p]] == 1
  {
    assert a == a[..p] + [a[p]] + a[p + 1..];
    assert a[p] !in a[..p] by {
      forall j | 0 <= j < p ensures a[j] != a[p] { assert a[j].ip != a[p].ip; }
    }
    assert a[p] !in a[p + 1..] by {
      forall j | p + 1 <= j < |a| ensures a[j] != a[p] { assert a[p].ip != a[j].ip; }
    }
  }
}
