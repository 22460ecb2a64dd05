/**
 * CIDR networks (`IpNetwork` in src/astral_wfp.rs): an address and a prefix
 * length, read from `address/prefix` text (section 3.1 of RFC 4632,
 * section 2.3 of RFC 4291). The address is kept exactly as written: host
 * bits are not cleared, and there is no containment test.
 */
module Network {
  import opened Wrappers
  import opened Ints
  import opened Text
  import opened IpAddress

  datatype IpNetwork = IpNetwork(ip: IpAddr, prefixLen: u8)

  /** The four error messages of `from_cidr`, one per way the text can be wrong. */
  datatype CidrError =
    | InvalidFormat                                   // not exactly one '/'
    | InvalidAddress                                  // text before '/' is no address
    | InvalidPrefixLength                             // text after '/' is no u8
    | PrefixTooLarge(prefixLen: u8, maxPrefix: u8)    // longer than the address family allows

  /** The longest prefix an address family allows: its width in bits. */
  function MaxPrefix(ip: IpAddr): (m: u8)
    ensures m as nat == if ip.V4? then 32 else 128
  {
    match ip
    case V4(_) => 32
    case V6(_) => 128
  }

  /** A network whose prefix fits its address family. */
  predicate ValidNetwork(n: IpNetwork)
  {
    n.prefixLen <= MaxPrefix(n.ip)
  }

  /**
   * `IpNetwork::from_cidr`: split on '/', demand exactly two pieces, read
   * the address, read the prefix as a `u8`, and reject a prefix longer
   * than the family's width. Every network it returns is valid.
   */
  function FromCidr(cidr: string, parseV6: string -> Option<u128>): (r: Result<IpNetwork, CidrError>)
    ensures r.Success? ==> ValidNetwork(r.value)
    ensures Count(cidr, '/') != 1 ==> r == Failure(InvalidFormat)
  {
    var parts := Split(cidr, '/');
    if |parts| != 2 then Failure(InvalidFormat)
    else
      match ParseIpAddr(parts[0], parseV6)
      case None => Failure(InvalidAddress)
      case Some(ip) =>
        match ParseU8(parts[1])
        case None => Failure(InvalidPrefixLength)
        case Some(prefixLen) =>
          if prefixLen > MaxPrefix(ip) then Failure(PrefixTooLarge(prefixLen, MaxPrefix(ip)))
          else Success(IpNetwork(ip, prefixLen))
  }

  /**
   * The outcome of `from_cidr` on `address/prefix` text, case by case: the
   * address is checked before the prefix, the prefix's syntax before its
   * size, and on success both are stored unchanged.
   */
  lemma FromCidrOfParts(address: string, prefix: string, parseV6: string -> Option<u128>)
    requires '/' !in address && '/' !in prefix
    ensures var r := FromCidr(address + "/" + prefix, parseV6);
            match ParseIpAddr(address, parseV6)
            case None => r == Failure(InvalidAddress)
            case Some(ip) =>
              match ParseU8(prefix)
              case None => r == Failure(InvalidPrefixLength)
              case Some(p) =>
                r == if p <= MaxPrefix(ip) then Success(IpNetwork(ip, p))
                     else Failure(PrefixTooLarge(p, MaxPrefix(ip)))
  {
    SplitAtFirstSeparator(address, '/', prefix);
    SplitNoSeparator(prefix, '/');
  }

  /**
   * Conversely, accepted text is an address, one '/', and a prefix, and the
   * network holds exactly what those two pieces read as.
   */
  lemma FromCidrSuccess(cidr: string, parseV6: string -> Option<u128>)
    requires FromCidr(cidr, parseV6).Success?
    ensures var n := FromCidr(cidr, parseV6).value;
            var parts := Split(cidr, '/');
            |parts| == 2 && cidr == parts[0] + "/" + parts[1] &&
            ParseIpAddr(parts[0], parseV6) == Some(n.ip) &&
            ParseU8(parts[1]) == Some(n.prefixLen)
  {
    JoinSplit(cidr, '/');
  }

  /** Text without a '/' is refused as invalid format, whatever it holds. */
  lemma NoSlashRefused(cidr: string, parseV6: string -> Option<u128>)
    requires '/' !in cidr
    ensures FromCidr(cidr, parseV6) == Failure(InvalidFormat)
  {
    SplitNoSeparator(cidr, '/');
  }

  /**
   * The text `a.b.c.d/n` of any IPv4 address and any decimal prefix: accepted
   * with the address and prefix unchanged up to 32, refused as too large
   * from 33 to 255, and refused as no `u8` from 256 on.
   */
  lemma FromCidrIpv4Text(x: u32, n: nat, parseV6: string -> Option<u128>)
    ensures FromCidr(FormatIpv4(x) + "/" + Decimal(n), parseV6)
         == if n <= 32 then Success(IpNetwork(V4(x), n as u8))
            else if n < 0x100 then Failure(PrefixTooLarge(n as u8, 32))
            else Failure(InvalidPrefixLength)
  {
    ParseFormatIpv4(x);
    ParseU8OfDecimal(n);
    FormatIpv4NoSlash(x);
    FromCidrOfParts(FormatIpv4(x), Decimal(n), parseV6);
  }

  /**
   * The text `address/n` where `address` is no IPv4 text, holds no '/', and
   * is accepted by the IPv6 reader: accepted with the address and prefix
   * unchanged up to 128, refused as too large from 129 to 255, and refused
   * as no `u8` from 256 on.
   */
  lemma FromCidrIpv6Text(address: string, n: nat, parseV6: string -> Option<u128>)
    requires ParseIpv4(address).None? && '/' !in address && parseV6(address).Some?
    ensures FromCidr(address + "/" + Decimal(n), parseV6)
         == if n <= 128 then Success(IpNetwork(V6(parseV6(address).value), n as u8))
            else if n < 0x100 then Failure(PrefixTooLarge(n as u8, 128))
            else Failure(InvalidPrefixLength)
  {
    ParseU8OfDecimal(n);
    FromCidrOfParts(address, Decimal(n), parseV6);
  }

  // Concrete texts from src/test.rs and src/main.rs.

  lemma Format192168()
    ensures FormatIpv4(0xC0A8_0000) == "192.168.0.0"
  {
    assert Octets(0xC0A8_0000) == [192, 168, 0, 0];
    Decimals192168();
    FormatIpv4Dotted(0xC0A8_0000);
  }

  lemma Decimals192168()
    ensures Decimal(192) == "192" && Decimal(168) == "168" && Decimal(0) == "0"
  {
  }

  lemma Format10126()
    ensures FormatIpv4(0x0A7E_7E01) == "10.126.126.1"
  {
    assert Octets(0x0A7E_7E01) == [10, 126, 126, 1];
    Decimals10126();
    FormatIpv4Dotted(0x0A7E_7E01);
  }

  lemma DecimalsOfPrefixes()
    ensures Decimal(12) == "12" && Decimal(24) == "24" && Decimal(32) == "32"
    ensures Decimal(33) == "33" && Decimal(300) == "300"
  {
  }

  lemma Decimals10126()
    ensures Decimal(10) == "10" && Decimal(126) == "126" && Decimal(1) == "1"
  {
  }

  /** "192.168.0.0/24" is the network 192.168.0.0 with prefix 24, whatever the IPv6 reader. */
  lemma Ipv4NetworkExample(parseV6: string -> Option<u128>)
    ensures FromCidr("192.168.0.0" + "/" + "24", parseV6) == Success(IpNetwork(V4(0xC0A8_0000), 24))
  {
    Format192168();
    DecimalsOfPrefixes();
    FromCidrIpv4Text(0xC0A8_0000, 24, parseV6);
  }

  /** "192.168.0.0/33" is refused: 33 is a valid u8 but longer than 32 bits. */
  lemma PrefixTooLargeExample(parseV6: string -> Option<u128>)
    ensures FromCidr("192.168.0.0" + "/" + "33", parseV6) == Failure(PrefixTooLarge(33, 32))
  {
    Format192168();
    DecimalsOfPrefixes();
    FromCidrIpv4Text(0xC0A8_0000, 33, parseV6);
  }

  /** "192.168.0.0/300" is refused as an unreadable prefix, not as a too-long one. */
  lemma PrefixNotU8Example(parseV6: string -> Option<u128>)
    ensures FromCidr("192.168.0.0" + "/" + "300", parseV6) == Failure(InvalidPrefixLength)
  {
    Format192168();
    DecimalsOfPrefixes();
    FromCidrIpv4Text(0xC0A8_0000, 300, parseV6);
  }

  /** "10.126.126.1/12" keeps its host bits: the stored address is 10.126.126.1, not 10.112.0.0. */
  lemma HostBitsKeptExample(parseV6: string -> Option<u128>)
    ensures FromCidr("10.126.126.1" + "/" + "12", parseV6) == Success(IpNetwork(V4(0x0A7E_7E01), 12))
  {
    Format10126();
    DecimalsOfPrefixes();
    FromCidrIpv4Text(0x0A7E_7E01, 12, parseV6);
  }

  /** "192.168.0.0", without a '/', is refused before anything is parsed. */
  lemma NoSlashExample(parseV6: string -> Option<u128>)
    ensures FromCidr("192.168.0.0", parseV6) == Failure(InvalidFormat)
  {
    NoSlashRefused("192.168.0.0", parseV6);
  }

  /** Text with two '/' is refused before anything is parsed. */
  lemma TwoSlashesExample(parseV6: string -> Option<u128>)
    ensures FromCidr("a/b/c", parseV6) == Failure(InvalidFormat)
  {
    assert Count("a/b/c", '/') == 2;
  }

  /** "2001:db8::/32" has prefix 32, for any IPv6 reader that accepts "2001:db8::". */
  lemma Ipv6NetworkExample(parseV6: string -> Option<u128>)
    requires parseV6("2001:db8::") == Some(0x2001_0db8_0000_0000_0000_0000_0000_0000)
    ensures FromCidr("2001:db8::" + "/" + "32", parseV6)
         == Success(IpNetwork(V6(0x2001_0db8_0000_0000_0000_0000_0000_0000), 32))
  {
    DocumentationAddress();
    DecimalsOfPrefixes();
    FromCidrIpv6Text("2001:db8::", 32, parseV6);
  }

  /** "2001:db8::" is no IPv4 text and holds no '/'. */
  lemma DocumentationAddress()
    ensures ParseIpv4("2001:db8::").None? && '/' !in "2001:db8::"
  {
    assert Count("2001:db8::", '.') == 0 && Count("2001:db8::", '/') == 0;
    CountZeroNotIn("2001:db8::", '.');
    CountZeroNotIn("2001:db8::", '/');
    NoDotNotIpv4("2001:db8::");
  }
}
