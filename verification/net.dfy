/**
 * IPv4 addresses as 32-bit numbers: dotted-quad parsing and printing,
 * CIDR networks, and the classification of an address into its scope
 * (Localhost, LAN, Multicast, Internet, Invalid).
 */
module Net {
  import opened Wrappers
  import Text

  type Octet = x: int | 0 <= x < 0x100
  type IPv4 = x: int | 0 <= x < 0x1_0000_0000
  type PrefixLength = x: int | 0 <= x <= 32

  /** The address `a.b.c.d`. */
  function Address(a: Octet, b: Octet, c: Octet, d: Octet): IPv4
  {
    a * 0x100_0000 + b * 0x1_0000 + c * 0x100 + d
  }

  /** The four octets of an address, most significant first. */
  function Octets(ip: IPv4): (o: (Octet, Octet, Octet, Octet))
    ensures Address(o.0, o.1, o.2, o.3) == ip
  {
    var o := (ip / 0x100_0000, (ip / 0x1_0000) % 0x100, (ip / 0x100) % 0x100, ip % 0x100);
    assert ip / 0x1_0000 == 0x100 * o.0 + o.1;
    assert ip / 0x100 == 0x100 * (ip / 0x1_0000) + o.2;
    o
  }

  /** One octet in dotted-quad text: one to three digits, no leading zero, at most 255. */
  function ParseOctet(s: string): Option<Octet>
  {
    match Text.ParseDecimal(s)
    case Some(v) =>
      if |s| <= 3 && (|s| == 1 || s[0] != '0') && v < 0x100 then Some(v) else None
    case None => None
  }

  /** Dotted-quad parsing: exactly four octets separated by `.`. */
  function ParseIPv4(s: string): Option<IPv4>
  {
    var parts := Text.Split(s, '.');
    if |parts| != 4 then None
    else
      match (ParseOctet(parts[0]), ParseOctet(parts[1]), ParseOctet(parts[2]), ParseOctet(parts[3]))
      case (Some(a), Some(b), Some(c), Some(d)) => Some(Address(a, b, c, d))
      case _ => None
  }

  /** The canonical dotted-quad text of an address. */
  function FormatIPv4(ip: IPv4): string
  {
    var o := Octets(ip);
    Text.Join([Text.DecimalString(o.0), Text.DecimalString(o.1), Text.DecimalString(o.2), Text.DecimalString(o.3)], '.')
  }

  lemma {:induction false} OctetRoundTrip(v: Octet)
    ensures ParseOctet(Text.DecimalString(v)) == Some(v)
    ensures '.' !in Text.DecimalString(v)
  {
    var s := Text.DecimalString(v);
    Text.DecimalRoundTrip(v);
    if v >= 10 {
      assert s == Text.DecimalString(v / 10) + [('0' as int + v % 10) as char];
      if v / 10 >= 10 {
        assert Text.DecimalString(v / 10) == Text.DecimalString(v / 100) + [('0' as int + (v / 10) % 10) as char];
        assert |Text.DecimalString(v / 100)| == 1;
      }
    }
    assert |s| <= 3;
    assert forall i :: 0 <= i < |s| ==> s[i] != '.';
  }

  /** Printing an address and parsing it back yields the same address. */
  lemma ParseFormat(ip: IPv4)
    ensures ParseIPv4(FormatIPv4(ip)) == Some(ip)
  {
    var o := Octets(ip);
    var parts := [Text.DecimalString(o.0), Text.DecimalString(o.1), Text.DecimalString(o.2), Text.DecimalString(o.3)];
    OctetRoundTrip(o.0);
    OctetRoundTrip(o.1);
    OctetRoundTrip(o.2);
    OctetRoundTrip(o.3);
    Text.SplitJoin(parts, '.');
  }

  /** Text that parses as an address is non-empty and made of digits and dots only. */
  lemma DottedDigits(s: string)
    requires ParseIPv4(s).Some?
    ensures s != []
    ensures forall j :: 0 <= j < |s| ==> Text.IsDigit(s[j]) || s[j] == '.'
  {
    var parts := Text.Split(s, '.');
    forall k | 0 <= k < |parts| ensures forall j :: 0 <= j < |parts[k]| ==> Text.IsDigit(parts[k][j]) || parts[k][j] == '.' {
      assert k == 0 || k == 1 || k == 2 || k == 3;
      assert ParseOctet(parts[k]).Some?;
    }
    Text.SplitAlphabet(s, '.', c => Text.IsDigit(c) || c == '.');
  }

  function Pow2(n: nat): (r: nat)
    ensures r >= 1
  {
    if n == 0 then 1
    else if n >= 8 then 0x100 * Pow2(n - 8)
    else 2 * Pow2(n - 1)
  }

  /** Size of the host part of a network with the given prefix length. */
  function HostSpan(prefix: PrefixLength): nat
  {
    Pow2(32 - prefix)
  }

  /** `ip` lies in the network `network/prefix`: the leading `prefix` bits agree. */
  predicate InNetwork(network: IPv4, prefix: PrefixLength, ip: IPv4)
  {
    ip / HostSpan(prefix) == network / HostSpan(prefix)
  }

  /** The address of the network of `ip`: its host bits cleared (what CIDR parsing keeps). */
  function NetworkAddress(ip: IPv4, prefix: PrefixLength): (n: IPv4)
    ensures InNetwork(n, prefix, ip)
    ensures n <= ip && ip - n < HostSpan(prefix)
    ensures n % HostSpan(prefix) == 0
  {
    RoundDown(ip, HostSpan(prefix))
  }

  /** `x` rounded down to a multiple of `k`. */
  function RoundDown(x: IPv4, k: nat): (n: IPv4)
    requires k > 0
    ensures n <= x && x - n < k && n / k == x / k
    ensures n % k == 0
  {
    var n := x - x % k;
    assert n == (x / k) * k;
    DivMul(x / k, k);
    n
  }

  lemma DivMul(q: nat, k: nat)
    requires k > 0
    ensures (q * k) / k == q
  {
    var r := (q * k) / k;
    var m := (q * k) % k;
    assert (q - r) * k == m;
    if q - r >= 1 { MulAtLeast(q - r, k); }
    if q - r <= -1 { MulAtLeast(r - q, k); }
  }

  lemma MulAtLeast(a: int, k: nat)
    requires a >= 1
    ensures a * k >= k
  {
  }

  /** A /32 network holds exactly its own address. */
  lemma HostNetwork(network: IPv4, ip: IPv4)
    ensures InNetwork(network, 32, ip) <==> ip == network
  {
    assert HostSpan(32) == 1;
  }

  /** A /0 network holds every address. */
  lemma EverythingNetwork(network: IPv4, ip: IPv4)
    ensures InNetwork(network, 0, ip)
  {
    assert HostSpan(0) == 0x1_0000_0000;
  }

  /** Clearing the host bits does not change which addresses a network holds. */
  lemma NetworkAddressSameNetwork(network: IPv4, prefix: PrefixLength, ip: IPv4)
    ensures InNetwork(NetworkAddress(network, prefix), prefix, ip) <==> InNetwork(network, prefix, ip)
  {
  }

  /** CIDR text `a.b.c.d/n`: an address and a prefix length of at most 32, host bits cleared. */
  function ParseCIDR(s: string): (r: Option<(IPv4, PrefixLength)>)
    ensures r.Some? ==> r.value.0 == NetworkAddress(r.value.0, r.value.1)
  {
    var parts := Text.Split(s, '/');
    if |parts| != 2 || |parts[1]| > 2 then None
    else
      match (ParseIPv4(parts[0]), Text.ParseDecimal(parts[1]))
      case (Some(ip), Some(n)) =>
        if n <= 32 then
          var net := NetworkAddress(ip, n);
          NetworkAddressFixed(ip, n);
          Some((net, n))
        else None
      case _ => None
  }

  lemma NetworkAddressFixed(ip: IPv4, prefix: PrefixLength)
    ensures NetworkAddress(NetworkAddress(ip, prefix), prefix) == NetworkAddress(ip, prefix)
  {
  }

  /** The canonical CIDR text `a.b.c.d/n` of a network. */
  function FormatCIDR(network: IPv4, prefix: PrefixLength): string
  {
    FormatIPv4(network) + "/" + Text.DecimalString(prefix)
  }

  /** A prefix length is printed with at most two digits. */
  lemma PrefixDigits(prefix: PrefixLength)
    ensures |Text.DecimalString(prefix)| <= 2
  {
    if prefix >= 10 {
      assert Text.DecimalString(prefix) == Text.DecimalString(prefix / 10) + [('0' as int + prefix % 10) as char];
    }
  }

  /**
   * Printing a network address with its prefix length and parsing it back
   * yields the same network; the text is not a plain address.
   */
  lemma ParseFormatCIDR(network: IPv4, prefix: PrefixLength)
    requires NetworkAddress(network, prefix) == network
    ensures ParseCIDR(FormatCIDR(network, prefix)) == Some((network, prefix))
    ensures ParseIPv4(FormatCIDR(network, prefix)).None?
  {
    var a := FormatIPv4(network);
    var p := Text.DecimalString(prefix);
    var s := FormatCIDR(network, prefix);
    ParseFormat(network);
    DottedDigits(a);
    assert '/' !in a by {
      forall j | 0 <= j < |a| ensures a[j] != '/' { }
    }
    assert '/' !in p by {
      forall j | 0 <= j < |p| ensures p[j] != '/' { assert Text.IsDigit(p[j]); }
    }
    assert Text.Join([a, p], '/') == s;
    Text.SplitJoin([a, p], '/');
    PrefixDigits(prefix);
    Text.DecimalRoundTrip(prefix);
    assert s[|a|] == '/';
    if ParseIPv4(s).Some? {
      DottedDigits(s);
      assert false;
    }
  }

  datatype Scope = Localhost | LAN | Multicast | Internet | Invalid

  /** The scope of an address, checked in priority order; the first class that holds wins. */
  function Classify(ip: IPv4): Scope
  {
    var (a, b, _, _) := Octets(ip);
    if a == 127 then Localhost
    else if a == 10 || (a == 172 && 16 <= b < 32) || (a == 192 && b == 168) || (a == 169 && b == 254) then LAN
    else if 224 <= a < 240 then Multicast
    else if ip == 0 then Invalid
    else Internet
  }

  /** The scope of an entity's address; without an address the scope is Invalid. */
  function ScopeOf(ip: Option<IPv4>): Scope
  {
    if ip.None? then Invalid else Classify(ip.value)
  }

  /** The scope classes as the CIDR ranges they stand for. */
  lemma ClassifyByNetwork(ip: IPv4)
    ensures Classify(ip) == Localhost <==> InNetwork(Address(127, 0, 0, 0), 8, ip)
    ensures Classify(ip) == LAN <==>
      || InNetwork(Address(10, 0, 0, 0), 8, ip)
      || InNetwork(Address(172, 16, 0, 0), 12, ip)
      || InNetwork(Address(192, 168, 0, 0), 16, ip)
      || InNetwork(Address(169, 254, 0, 0), 16, ip)
    ensures Classify(ip) == Multicast <==> InNetwork(Address(224, 0, 0, 0), 4, ip)
    ensures Classify(ip) == Invalid <==> ip == 0
  {
    assert HostSpan(8) == 0x100_0000;
    assert HostSpan(12) == 0x10_0000;
    assert HostSpan(16) == 0x1_0000;
    assert HostSpan(4) == 0x1000_0000;
    var q := ip / 0x1_0000;
    assert ip / 0x100_0000 == q / 0x100;
    assert ip / 0x10_0000 == q / 0x10;
    assert ip / 0x1000_0000 == q / 0x1000;
  }
}
