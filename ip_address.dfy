/**
 * Dotted-quad text and the little-endian DHCP integer (NetworkToolsViewModel's
 * `intToIp`, `ipToInt` and `lastOctetOrMax`). On Android the DHCP integer holds
 * the first octet in its lowest byte.
 */
module IpAddress {
  import opened Wrappers
  import opened Int32
  import opened KotlinText

  /** `"%d.%d.%d.%d"` of four numbers. */
  function Quad(a: nat, b: nat, c: nat, d: nat): string {
    NatToString(a) + "." + NatToString(b) + "." + NatToString(c) + "." + NatToString(d)
  }

  /**
   * `intToIp`: `ip and 0xff`, `ip shr 8 and 0xff`, `ip shr 16 and 0xff`,
   * `ip shr 24 and 0xff` are the four bytes from the lowest up.
   */
  function IntToIp(ip: Int): string {
    Quad(ip.b0, ip.b1, ip.b2, ip.b3)
  }

  /** One part of `ipToInt`: an unparsable part counts as 0, and only its low 8 bits are kept. */
  function OctetOf(part: string): (r: Byte)
    ensures ParseInt(part).None? ==> r == 0
    ensures ParseInt(part).Some? ==> (r - ParseInt(part).value) % 256 == 0
  {
    match ParseInt(part)
    case None => 0
    case Some(v) => v % 256
  }

  /**
   * `ipToInt`: 0 unless the text splits on '.' into exactly four parts; otherwise
   * part k supplies byte k (`(b0 and 0xff) or ((b1 and 0xff) shl 8) or …`).
   */
  function IpToInt(ip: string): Int {
    var parts := Split(ip, '.');
    if |parts| != 4 then Int(0, 0, 0, 0)
    else Int(OctetOf(parts[0]), OctetOf(parts[1]), OctetOf(parts[2]), OctetOf(parts[3]))
  }

  /** `ip.substringAfterLast(".", "").toIntOrNull() ?: Int.MAX_VALUE` */
  function LastOctetOrMax(ip: string): int {
    match ParseInt(SubstringAfterLast(ip, '.', ""))
    case Some(v) => v
    case None => MAX
  }

  /** Text of the form `a.b.c.d` with every number written canonically and below 256. */
  ghost predicate IsCanonicalQuad(s: string) {
    exists a: Byte, b: Byte, c: Byte, d: Byte :: s == Quad(a, b, c, d)
  }

  /* ----------------------------- lemmas ----------------------------- */

  lemma NoDotInDigits(s: string)
    requires AllDigits(s)
    ensures '.' !in s
  {
  }

  /** A quad splits on '.' into its four numerals. */
  lemma SplitQuad(a: nat, b: nat, c: nat, d: nat)
    ensures Split(Quad(a, b, c, d), '.') == [NatToString(a), NatToString(b), NatToString(c), NatToString(d)]
  {
    var sa, sb, sc, sd := NatToString(a), NatToString(b), NatToString(c), NatToString(d);
    NoDotInDigits(sa); NoDotInDigits(sb); NoDotInDigits(sc); NoDotInDigits(sd);
    SplitFour(sa, sb, sc, sd);
  }

  /** Four pieces without a '.' joined by '.' split back into those pieces. */
  lemma SplitFour(sa: string, sb: string, sc: string, sd: string)
    requires '.' !in sa && '.' !in sb && '.' !in sc && '.' !in sd
    ensures Split(sa + "." + sb + "." + sc + "." + sd, '.') == [sa, sb, sc, sd]
  {
    var tail := sb + "." + sc + "." + sd;
    SplitThree(sb, sc, sd);
    assert sa + "." + sb + "." + sc + "." + sd == sa + ['.'] + tail;
    SplitJoin(sa, '.', tail);
  }

  lemma SplitThree(sb: string, sc: string, sd: string)
    requires '.' !in sb && '.' !in sc && '.' !in sd
    ensures Split(sb + "." + sc + "." + sd, '.') == [sb, sc, sd]
  {
    SplitWithoutSeparator(sd, '.');
    SplitJoin(sc, '.', sd);
    assert sb + "." + sc + "." + sd == sb + ['.'] + (sc + "." + sd);
    SplitJoin(sb, '.', sc + "." + sd);
  }

  /** `ipToInt(intToIp(x)) == x` for every 32-bit `x`. */
  lemma IntToIpRoundTrip(x: Int)
    ensures IpToInt(IntToIp(x)) == x
  {
    SplitQuad(x.b0, x.b1, x.b2, x.b3);
    var parts := Split(IntToIp(x), '.');
    OctetOfNatToString(x.b0);
    OctetOfNatToString(x.b1);
    OctetOfNatToString(x.b2);
    OctetOfNatToString(x.b3);
    assert OctetOf(parts[0]) == x.b0 && OctetOf(parts[1]) == x.b1;
    assert OctetOf(parts[2]) == x.b2 && OctetOf(parts[3]) == x.b3;
  }

  lemma OctetOfNatToString(b: Byte)
    ensures OctetOf(NatToString(b)) == b
  {
    ParseNatToString(b);
  }

  /**
   * What `ipToInt` keeps: text with four parts comes back as the quad of the
   * parts' octets; any other text reads as 0, which prints as "0.0.0.0".
   */
  lemma IpToIntNormalises(s: string)
    ensures var parts := Split(s, '.');
      IntToIp(IpToInt(s)) ==
        if |parts| == 4 then Quad(OctetOf(parts[0]), OctetOf(parts[1]), OctetOf(parts[2]), OctetOf(parts[3]))
        else "0.0.0.0"
  {
  }

  /** `intToIp(ipToInt(s)) == s` exactly when `s` is a canonical dotted quad. */
  lemma IpToIntRoundTripIffCanonical(s: string)
    ensures IntToIp(IpToInt(s)) == s <==> IsCanonicalQuad(s)
  {
    if IsCanonicalQuad(s) {
      var a: Byte, b: Byte, c: Byte, d: Byte :| s == Quad(a, b, c, d);
      IntToIpRoundTrip(Int(a, b, c, d));
    }
    if IntToIp(IpToInt(s)) == s {
      var x := IpToInt(s);
      assert s == Quad(x.b0, x.b1, x.b2, x.b3);
    }
  }

  lemma {:induction false} LastIndexAfterSeparator(p: string, c: char, q: string)
    requires c !in q
    ensures LastIndexOf(p + [c] + q, c) == Some(|p|)
  {
    if q != [] {
      var q' := q[..|q| - 1];
      assert (p + [c] + q)[..|p + [c] + q| - 1] == p + [c] + q';
      LastIndexAfterSeparator(p, c, q');
    }
  }

  /** The last octet of a formatted address is its highest byte. */
  lemma LastOctetOfIntToIp(x: Int)
    ensures LastOctetOrMax(IntToIp(x)) == x.b3
  {
    var p := NatToString(x.b0) + "." + NatToString(x.b1) + "." + NatToString(x.b2);
    var q := NatToString(x.b3);
    NoDotInDigits(q);
    assert IntToIp(x) == p + ['.'] + q;
    LastIndexAfterSeparator(p, '.', q);
    assert (p + ['.'] + q)[|p| + 1..] == q;
    ParseNatToString(x.b3);
  }

  /** Text without a '.' sorts last. */
  lemma LastOctetWithoutDot(s: string)
    requires '.' !in s
    ensures LastOctetOrMax(s) == MAX
  {
  }
}
