/**
 * Choice of the filtering layers a rule is installed at
 * (`get_layers_for_rule` in src/astral_wfp.rs). Only the direction and the
 * two single addresses matter; the CIDR network fields, ports, protocol and
 * application path play no part.
 */
module Layers {
  import opened Wrappers
  import opened IpAddress
  import opened Network
  import opened Rule

  /** The four ALE authorisation layers the controller uses. */
  datatype Layer = ConnectV4 | ConnectV6 | RecvAcceptV4 | RecvAcceptV6

  predicate IsV6Layer(l: Layer)
  {
    l.ConnectV6? || l.RecvAcceptV6?
  }

  /** Outgoing-connection layers, as opposed to incoming-accept layers. */
  predicate IsConnectLayer(l: Layer)
  {
    l.ConnectV4? || l.ConnectV6?
  }

  /** The rule names an IPv6 address as its local or its remote address. */
  predicate UsesIpv6(rule: FilterRule)
  {
    (rule.localIp.Some? && IsIpv6(rule.localIp.value)) ||
    (rule.remoteIp.Some? && IsIpv6(rule.remoteIp.value))
  }

  /** The first `match` of the selector: one address family, layers by direction. */
  function DirectionLayers(direction: Direction, ipv6: bool): (layers: seq<Layer>)
    ensures |layers| >= 1
  {
    match direction
    case Outbound => if ipv6 then [ConnectV6] else [ConnectV4]
    case Inbound => if ipv6 then [RecvAcceptV6] else [RecvAcceptV4]
    case Both => if ipv6 then [ConnectV6, RecvAcceptV6] else [ConnectV4, RecvAcceptV4]
  }

  /** The second `match`, meant for rules without an address family: both families. */
  function BothFamilyLayers(direction: Direction): seq<Layer>
  {
    match direction
    case Outbound => [ConnectV4, ConnectV6]
    case Inbound => [RecvAcceptV4, RecvAcceptV6]
    case Both => [ConnectV4, RecvAcceptV4, ConnectV6, RecvAcceptV6]
  }

  /**
   * `get_layers_for_rule`. The second `match` runs only when the first
   * produced nothing, which never happens; so the result is one family's
   * layers: IPv6 exactly when an address is IPv6, the connect layer unless
   * the rule is inbound only, the accept layer unless it is outbound only,
   * connect before accept.
   */
  function LayersForRule(rule: FilterRule): (layers: seq<Layer>)
    ensures |layers| == if rule.direction == Both then 2 else 1
    ensures forall k :: 0 <= k < |layers| ==> IsV6Layer(layers[k]) == UsesIpv6(rule)
    ensures IsConnectLayer(layers[0]) <==> rule.direction != Inbound
    ensures rule.direction == Both ==> !IsConnectLayer(layers[1])
  {
    var layers := DirectionLayers(rule.direction, UsesIpv6(rule));
    if |layers| == 0 then BothFamilyLayers(rule.direction) else layers
  }

  /**
   * A rule without a single address is installed for IPv4 only, in every
   * direction: the both-families branch that was meant for it is never
   * reached.
   */
  lemma NoAddressMeansIpv4Only(rule: FilterRule)
    requires rule.localIp.None? && rule.remoteIp.None?
    ensures forall l :: l in LayersForRule(rule) ==> !IsV6Layer(l)
    ensures LayersForRule(rule) != BothFamilyLayers(rule.direction)
  {
  }

  /** The network fields set by the CIDR builder steps do not influence the layers. */
  lemma LayersIgnoreNetworks(rule: FilterRule, local: Option<IpNetwork>, remote: Option<IpNetwork>)
    ensures LayersForRule(rule.(localIpNetwork := local, remoteIpNetwork := remote)) == LayersForRule(rule)
  {
  }

  /** A fresh rule, whatever its name, is installed at the IPv4 connect and accept layers. */
  lemma NewRuleLayers(name: string)
    ensures LayersForRule(NewRule(name)) == [ConnectV4, RecvAcceptV4]
  {
  }
}
