/**
 * The declarative rule (`FilterRule` in src/astral_wfp.rs) and its fluent
 * builder. Every builder step consumes a rule and returns it with one field
 * replaced, so each is a function from rule to rule here.
 */
module Rule {
  import opened Wrappers
  import opened Ints
  import opened IpAddress
  import opened Network

  datatype Protocol = Tcp | Udp | Icmp

  datatype Direction = Inbound | Outbound | Both

  datatype FilterAction = Allow | Block

  datatype FilterRule = FilterRule(
    name: string,
    appPath: Option<string>,
    localIp: Option<IpAddr>,
    remoteIp: Option<IpAddr>,
    localIpNetwork: Option<IpNetwork>,
    remoteIpNetwork: Option<IpNetwork>,
    localPort: Option<u16>,
    remotePort: Option<u16>,
    protocol: Option<Protocol>,
    direction: Direction,
    action: FilterAction)

  /** The fields of a rule, so that "only this field changed" can be said once. */
  datatype Field =
    | NameField | AppPathField | LocalIpField | RemoteIpField
    | LocalIpNetworkField | RemoteIpNetworkField | LocalPortField | RemotePortField
    | ProtocolField | DirectionField | ActionField

  /** Rules `a` and `b` hold the same value in field `f`. */
  predicate AgreeOn(a: FilterRule, b: FilterRule, f: Field)
  {
    match f
    case NameField => a.name == b.name
    case AppPathField => a.appPath == b.appPath
    case LocalIpField => a.localIp == b.localIp
    case RemoteIpField => a.remoteIp == b.remoteIp
    case LocalIpNetworkField => a.localIpNetwork == b.localIpNetwork
    case RemoteIpNetworkField => a.remoteIpNetwork == b.remoteIpNetwork
    case LocalPortField => a.localPort == b.localPort
    case RemotePortField => a.remotePort == b.remotePort
    case ProtocolField => a.protocol == b.protocol
    case DirectionField => a.direction == b.direction
    case ActionField => a.action == b.action
  }

  /** `b` is `a` with at most field `f` changed. */
  predicate OnlyChanged(a: FilterRule, b: FilterRule, f: Field)
  {
    forall g: Field :: g != f ==> AgreeOn(a, b, g)
  }

  /** A rule is fixed by the rule it came from, the field that changed, and that field's new value. */
  lemma OnlyChangedDetermines(a: FilterRule, b: FilterRule, c: FilterRule, f: Field)
    requires OnlyChanged(a, b, f) && OnlyChanged(a, c, f) && AgreeOn(b, c, f)
    ensures b == c
  {
    assert forall g: Field :: AgreeOn(b, c, g) by {
      forall g: Field ensures AgreeOn(b, c, g) {
        if g != f {
          assert AgreeOn(a, b, g) && AgreeOn(a, c, g);
        }
      }
    }
    assert AgreeOn(b, c, NameField) && AgreeOn(b, c, AppPathField) && AgreeOn(b, c, LocalIpField);
    assert AgreeOn(b, c, RemoteIpField) && AgreeOn(b, c, LocalIpNetworkField);
    assert AgreeOn(b, c, RemoteIpNetworkField) && AgreeOn(b, c, LocalPortField);
    assert AgreeOn(b, c, RemotePortField) && AgreeOn(b, c, ProtocolField);
    assert AgreeOn(b, c, DirectionField) && AgreeOn(b, c, ActionField);
  }

  /** `FilterRule::new`: the name, nothing to match on, both directions, and blocking. */
  function NewRule(name: string): (r: FilterRule)
    ensures r.name == name && r.direction == Both && r.action == Block
    ensures r.appPath.None? && r.localIp.None? && r.remoteIp.None?
    ensures r.localIpNetwork.None? && r.remoteIpNetwork.None?
    ensures r.localPort.None? && r.remotePort.None? && r.protocol.None?
  {
    FilterRule(name, None, None, None, None, None, None, None, None, Both, Block)
  }

  function WithAppPath(rule: FilterRule, path: string): (r: FilterRule)
    ensures r.appPath == Some(path) && OnlyChanged(rule, r, AppPathField)
  {
    rule.(appPath := Some(path))
  }

  function WithLocalIp(rule: FilterRule, ip: IpAddr): (r: FilterRule)
    ensures r.localIp == Some(ip) && OnlyChanged(rule, r, LocalIpField)
  {
    rule.(localIp := Some(ip))
  }

  function WithRemoteIp(rule: FilterRule, ip: IpAddr): (r: FilterRule)
    ensures r.remoteIp == Some(ip) && OnlyChanged(rule, r, RemoteIpField)
  {
    rule.(remoteIp := Some(ip))
  }

  function WithLocalIpNetwork(rule: FilterRule, network: IpNetwork): (r: FilterRule)
    ensures r.localIpNetwork == Some(network) && OnlyChanged(rule, r, LocalIpNetworkField)
  {
    rule.(localIpNetwork := Some(network))
  }

  function WithRemoteIpNetwork(rule: FilterRule, network: IpNetwork): (r: FilterRule)
    ensures r.remoteIpNetwork == Some(network) && OnlyChanged(rule, r, RemoteIpNetworkField)
  {
    rule.(remoteIpNetwork := Some(network))
  }

  /**
   * `local_ip_cidr`: fails with exactly the error of `from_cidr`, and
   * otherwise sets the local network to what `from_cidr` read.
   */
  function WithLocalIpCidr(rule: FilterRule, cidr: string, parseV6: string -> Option<u128>)
    : (r: Result<FilterRule, CidrError>)
    ensures FromCidr(cidr, parseV6).Failure? ==> r == Failure(FromCidr(cidr, parseV6).error)
    ensures FromCidr(cidr, parseV6).Success? ==>
              r.Success? && r.value.localIpNetwork == Some(FromCidr(cidr, parseV6).value) &&
              OnlyChanged(rule, r.value, LocalIpNetworkField)
  {
    match FromCidr(cidr, parseV6)
    case Failure(e) => Failure(e)
    case Success(network) => Success(WithLocalIpNetwork(rule, network))
  }

  /**
   * `remote_ip_cidr`: fails with exactly the error of `from_cidr`, and
   * otherwise sets the remote network to what `from_cidr` read.
   */
  function WithRemoteIpCidr(rule: FilterRule, cidr: string, parseV6: string -> Option<u128>)
    : (r: Result<FilterRule, CidrError>)
    ensures FromCidr(cidr, parseV6).Failure? ==> r == Failure(FromCidr(cidr, parseV6).error)
    ensures FromCidr(cidr, parseV6).Success? ==>
              r.Success? && r.value.remoteIpNetwork == Some(FromCidr(cidr, parseV6).value) &&
              OnlyChanged(rule, r.value, RemoteIpNetworkField)
  {
    match FromCidr(cidr, parseV6)
    case Failure(e) => Failure(e)
    case Success(network) => Success(WithRemoteIpNetwork(rule, network))
  }

  function WithLocalPort(rule: FilterRule, port: u16): (r: FilterRule)
    ensures r.localPort == Some(port) && OnlyChanged(rule, r, LocalPortField)
  {
    rule.(localPort := Some(port))
  }

  function WithRemotePort(rule: FilterRule, port: u16): (r: FilterRule)
    ensures r.remotePort == Some(port) && OnlyChanged(rule, r, RemotePortField)
  {
    rule.(remotePort := Some(port))
  }

  function WithProtocol(rule: FilterRule, protocol: Protocol): (r: FilterRule)
    ensures r.protocol == Some(protocol) && OnlyChanged(rule, r, ProtocolField)
  {
    rule.(protocol := Some(protocol))
  }

  function WithDirection(rule: FilterRule, direction: Direction): (r: FilterRule)
    ensures r.direction == direction && OnlyChanged(rule, r, DirectionField)
  {
    rule.(direction := direction)
  }

  function WithAction(rule: FilterRule, action: FilterAction): (r: FilterRule)
    ensures r.action == action && OnlyChanged(rule, r, ActionField)
  {
    rule.(action := action)
  }

  /**
   * The builder chain of src/test.rs: a name, an application path, two
   * ports, a protocol, a direction and an action, each landing in its own
   * field, and the address fields left empty.
   */
  lemma BuilderChainExample(name: string, path: string)
    ensures var rule := WithAction(WithDirection(WithProtocol(WithRemotePort(WithLocalPort(
                          WithAppPath(NewRule(name), path), 80), 443), Tcp), Inbound), Block);
            rule == FilterRule(name, Some(path), None, None, None, None, Some(80), Some(443),
                               Some(Tcp), Inbound, Block)
  {
  }
}
