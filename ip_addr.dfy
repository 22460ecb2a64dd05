/**
 * IP addresses, and the text form of IPv4 addresses as Rust's
 * `str::parse::<IpAddr>()` accepts it. IPv6 text is read by a parser
 * given as a parameter.
 */
module IpAddress {
  import opened Wrappers
  import opened Ints
  import opened Text

  /** Rust's `std::net::IpAddr`, each variant holding the address as one unsigned integer. */
  datatype IpAddr = V4(v4: u32) | V6(v6: u128)

  /** Rust's `IpAddr::is_ipv6`. */
  predicate IsIpv6(ip: IpAddr)
  {
    ip.V6?
  }

  /**
   * One dot-separated group of an IPv4 text as Rust's address parser reads
   * it: 1 to 3 ASCII digits, no leading zero unless the group is a single
   * "0", and a value that fits in a byte.
   */
  function ParseOctet(s: string): Option<nat>
  {
    if 1 <= |s| <= 3 && AllDigits(s) && !(|s| > 1 && s[0] == '0') && DecimalValue(s) < 0x100
    then Some(DecimalValue(s))
    else None
  }

  /** The groups accepted are exactly the decimal texts of the values 0 to 255. */
  lemma ParseOctetOfDecimal(n: nat)
    ensures ParseOctet(Decimal(n)) == if n < 0x100 then Some(n) else None
  {
    DecimalValueOfDecimal(n);
    DecimalLength(n);
  }

  /** An accepted group is the decimal text of the value it was read as. */
  lemma ParseOctetIsCanonical(s: string)
    requires ParseOctet(s).Some?
    ensures s == Decimal(ParseOctet(s).value)
  {
    DecimalOfDecimalValue(s);
  }

  /** The four bytes of an IPv4 address, most significant first, packed into 32 bits. */
  function Pack(a: nat, b: nat, c: nat, d: nat): u32
    requires a < 0x100 && b < 0x100 && c < 0x100 && d < 0x100
  {
    (((a * 0x100 + b) * 0x100 + c) * 0x100 + d) as u32
  }

  /** The four bytes of an IPv4 address, most significant first. */
  function Octets(x: u32): seq<nat>
  {
    [x as nat / 0x100_0000, (x as nat / 0x1_0000) % 0x100, (x as nat / 0x100) % 0x100, x as nat % 0x100]
  }

  lemma OctetsOfPack(a: nat, b: nat, c: nat, d: nat)
    requires a < 0x100 && b < 0x100 && c < 0x100 && d < 0x100
    ensures Octets(Pack(a, b, c, d)) == [a, b, c, d]
  {
    var x := Pack(a, b, c, d) as nat;
    var hi := (a * 0x100 + b) * 0x100 + c;
    assert x == hi * 0x100 + d;
    assert x / 0x100 == hi && x % 0x100 == d;
    assert hi / 0x100 == a * 0x100 + b && hi % 0x100 == c;
    assert (a * 0x100 + b) / 0x100 == a && (a * 0x100 + b) % 0x100 == b;
    assert x / 0x1_0000 == hi / 0x100;
    assert x / 0x100_0000 == (a * 0x100 + b) / 0x100;
  }

  lemma PackOfOctets(x: u32)
    ensures var o := Octets(x); o[0] < 0x100 && Pack(o[0], o[1], o[2], o[3]) == x
  {
    var n := x as nat;
    var q1 := n / 0x100;
    var q2 := q1 / 0x100;
    var q3 := q2 / 0x100;
    assert n == q1 * 0x100 + n % 0x100;
    assert q1 == q2 * 0x100 + q1 % 0x100;
    assert q2 == q3 * 0x100 + q2 % 0x100;
    assert n / 0x1_0000 == q2;
    assert n / 0x100_0000 == q3;
  }

  /** Four pieces joined by a separator: their lengths plus three. */
  lemma JoinFourLength(groups: seq<string>, sep: char)
    requires |groups| == 4
    ensures |Join(groups, sep)| == |groups[0]| + |groups[1]| + |groups[2]| + |groups[3]| + 3
  {
    assert groups[1..][1..] == groups[2..];
    assert groups[2..][1..] == groups[3..];
    assert Join(groups[2..], sep) == groups[2] + [sep] + groups[3];
    assert Join(groups[1..], sep) == groups[1] + [sep] + Join(groups[2..], sep);
  }

  /**
   * Rust's reading of an IPv4 address text: exactly four groups separated
   * by `.`, each accepted by ParseOctet, and nothing else.
   */
  function ParseIpv4(s: string): (r: Option<u32>)
    ensures r.Some? ==> Count(s, '.') == 3 && 7 <= |s| <= 15
  {
    var groups := Split(s, '.');
    if |groups| != 4 then None
    else
      JoinSplit(s, '.');
      JoinFourLength(groups, '.');
      match (ParseOctet(groups[0]), ParseOctet(groups[1]), ParseOctet(groups[2]), ParseOctet(groups[3]))
      case (Some(a), Some(b), Some(c), Some(d)) => Some(Pack(a, b, c, d))
      case _ => None
  }

  /** Text without a '.' is a single group, never four, so it is no IPv4 text. */
  lemma NoDotNotIpv4(s: string)
    requires '.' !in s
    ensures ParseIpv4(s).None?
  {
    SplitNoSeparator(s, '.');
  }

  /** The dotted-quad text of an IPv4 address (Rust's `Display` for `Ipv4Addr`). */
  function FormatIpv4(x: u32): string
  {
    var o := Octets(x);
    Join([Decimal(o[0]), Decimal(o[1]), Decimal(o[2]), Decimal(o[3])], '.')
  }

  /** Dotted-quad text holds digits and dots only, so no '/' (which separates a CIDR prefix). */
  lemma FormatIpv4NoSlash(x: u32)
    ensures '/' !in FormatIpv4(x)
  {
    FormatIpv4Dotted(x);
  }

  /** The dotted-quad text written out: four decimal groups joined by dots. */
  lemma FormatIpv4Dotted(x: u32)
    ensures var o := Octets(x);
            FormatIpv4(x) == Decimal(o[0]) + "." + Decimal(o[1]) + "." + Decimal(o[2]) + "." + Decimal(o[3])
  {
    var o := Octets(x);
    var a, b, c, d := Decimal(o[0]), Decimal(o[1]), Decimal(o[2]), Decimal(o[3]);
    assert [a, b, c, d][1..] == [b, c, d];
    assert [b, c, d][1..] == [c, d];
    assert [c, d][1..] == [d];
    assert Join([c, d], '.') == c + "." + d;
    assert Join([b, c, d], '.') == b + "." + c + "." + d;
  }

  /** Every IPv4 address reads back from its dotted-quad text. */
  lemma ParseFormatIpv4(x: u32)
    ensures ParseIpv4(FormatIpv4(x)) == Some(x)
  {
    var o := Octets(x);
    PackOfOctets(x);
    var groups := [Decimal(o[0]), Decimal(o[1]), Decimal(o[2]), Decimal(o[3])];
    forall k | 0 <= k < 4
      ensures '.' !in groups[k] && ParseOctet(groups[k]) == Some(o[k])
    {
      ParseOctetOfDecimal(o[k]);
    }
    SplitJoin(groups, '.');
  }

  /** The only text read as an IPv4 address is that address's dotted-quad text. */
  lemma FormatParseIpv4(s: string)
    requires ParseIpv4(s).Some?
    ensures FormatIpv4(ParseIpv4(s).value) == s
  {
    var groups := Split(s, '.');
    var a, b, c, d := ParseOctet(groups[0]).value, ParseOctet(groups[1]).value,
                      ParseOctet(groups[2]).value, ParseOctet(groups[3]).value;
    OctetsOfPack(a, b, c, d);
    ParseOctetIsCanonical(groups[0]);
    ParseOctetIsCanonical(groups[1]);
    ParseOctetIsCanonical(groups[2]);
    ParseOctetIsCanonical(groups[3]);
    JoinSplit(s, '.');
    assert groups == [groups[0], groups[1], groups[2], groups[3]];
  }

  /**
   * Rust's `s.parse::<IpAddr>()`: the IPv4 reading is tried first, then the
   * IPv6 reading `parseV6` (which stands for the standard library's IPv6
   * text parser; it never accepts a dotted quad on its own).
   */
  function ParseIpAddr(s: string, parseV6: string -> Option<u128>): (r: Option<IpAddr>)
    ensures ParseIpv4(s).Some? ==> r == Some(V4(ParseIpv4(s).value))
    ensures r.Some? && r.value.V6? ==> ParseIpv4(s).None? && parseV6(s) == Some(r.value.v6)
    ensures r.None? <==> ParseIpv4(s).None? && parseV6(s).None?
  {
    match ParseIpv4(s)
    case Some(x) => Some(V4(x))
    case None =>
      match parseV6(s)
      case Some(y) => Some(V6(y))
      case None => None
  }

  /** Dotted-quad text always reads as that IPv4 address, whatever the IPv6 reader would say. */
  lemma ParseIpAddrOfFormat(x: u32, parseV6: string -> Option<u128>)
    ensures ParseIpAddr(FormatIpv4(x), parseV6) == Some(V4(x))
  {
    ParseFormatIpv4(x);
  }
}
