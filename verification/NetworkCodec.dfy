/**
 Network rules between the SDK's form and the stored one: what validation accepts
 (internal/network.ts), how it is written, and how it is read back (mappers.ts).
 */
module NetworkCodec {
  import opened Wrappers
  import opened DnsNames

  // ----- The SDK's form ---------------------------------------------------------------

  datatype PortRange = PortRange(port: int, endPort: Option<int>, protocol: Option<string>)

  datatype CidrBlock = CidrBlock(cidr: string, exceptCidrs: Option<seq<string>>)

  datatype SelectorBlock = SelectorBlock(
    podLabels: map<string, string>, namespaceLabels: Option<map<string, string>>)

  datatype Tenant = SameUser | SameOrg | SandboxNetwork

  datatype EgressRule = EgressRule(
    dnsName: Option<string>, cidr: Option<CidrBlock>, tenant: Option<Tenant>, any: Option<bool>,
    selector: Option<SelectorBlock>, ports: Option<seq<PortRange>>)

  datatype IngressRule = IngressRule(
    cidr: Option<CidrBlock>, tenant: Option<Tenant>, any: Option<bool>, ports: Option<seq<PortRange>>)

  datatype DnsMode = Allow | Deny

  datatype NetworkOptions = NetworkOptions(
    denyEgress: Option<bool>, denyIngress: Option<bool>, dnsEgress: Option<DnsMode>,
    egress: Option<seq<EgressRule>>, ingress: Option<seq<IngressRule>>)

  // ----- The stored form --------------------------------------------------------------

  datatype StoredPort = StoredPort(port: int, endPort: int, protocol: string)

  datatype StoredCidr = StoredCidr(cidr: string, except: seq<string>)

  /** A tenant scope; a number this SDK does not know reads as unspecified. */
  datatype StoredTenant = Unspecified | Known(tenant: Tenant) | Unknown(number: int)

  /** A destination or source; `Other` is one this SDK does not know, or none at all. */
  datatype Peer =
    | HttpsHostname(name: string) | Cidr(block: StoredCidr) | TenantPeer(scope: StoredTenant) | Any(any: bool)
    | Selector(podLabels: map<string, string>, namespaceLabels: map<string, string>) | Other(id: nat)

  datatype StoredEgress = StoredEgress(destination: Peer, ports: seq<StoredPort>, httpsHostnameExcept: seq<string>)

  datatype StoredIngress = StoredIngress(source: Peer, ports: seq<StoredPort>)

  datatype StoredDns = DnsUnspecified | Mode(mode: DnsMode) | DnsUnknown(number: int)

  datatype Spec = Spec(
    denyEgress: Option<bool>, denyIngress: Option<bool>, dnsEgress: StoredDns,
    egress: seq<StoredEgress>, ingress: seq<StoredIngress>)

  datatype RuleList = Egress | Ingress

  /** What a read shows: the document, and the rule lists it could not show. */
  datatype Reading = Reading(network: NetworkOptions, unsupportedFields: seq<RuleList>)

  // ----- Validation --------------------------------------------------------------------

  /** `toUpperCase() === "TCP"`: no character outside ASCII upper-cases to one of these. */
  predicate IsTcp(protocol: string) {
    |protocol| == 3 && protocol[0] in "tT" && protocol[1] in "cC" && protocol[2] in "pP"
  }

  predicate IsHttps443(range: PortRange) {
    && range.port == 443
    && (range.endPort.Some? ==> range.endPort.value == 443)
    && (range.protocol.Some? ==> IsTcp(range.protocol.value))
  }

  predicate IsHttpsOnlyPorts(ports: Option<seq<PortRange>>) {
    ports.Some? ==> forall p <- ports.value :: IsHttps443(p)
  }

  predicate ValidPortRange(range: PortRange) {
    && 1 <= range.port <= 65535
    && (range.endPort.Some? ==> range.port <= range.endPort.value <= 65535)
  }

  predicate ValidPorts(ports: Option<seq<PortRange>>) {
    ports.Some? ==> forall p <- ports.value :: ValidPortRange(p)
  }

  predicate Blank(s: string) { Trim(s) == "" }

  predicate ValidCidr(block: CidrBlock) {
    && !Blank(block.cidr)
    && (block.exceptCidrs.Some? ==> forall e <- block.exceptCidrs.value :: !Blank(e))
  }

  function Count(b: bool): nat { if b then 1 else 0 }

  predicate ValidEgressRule(rule: EgressRule) {
    && Count(rule.dnsName.Some?) + Count(rule.cidr.Some?) + Count(rule.tenant.Some?) + Count(rule.any == Some(true))
         + Count(rule.selector.Some?) == 1
    && (rule.dnsName.Some? ==> NormalizeDnsName(rule.dnsName.value).Some?)
    && (rule.cidr.Some? ==> ValidCidr(rule.cidr.value))
    && (rule.selector.Some? ==> rule.selector.value.podLabels != map[])
    && ValidPorts(rule.ports)
    && (rule.dnsName.Some? ==> IsHttpsOnlyPorts(rule.ports))
  }

  predicate ValidIngressRule(rule: IngressRule) {
    && Count(rule.cidr.Some?) + Count(rule.tenant.Some?) + Count(rule.any == Some(true)) == 1
    && (rule.cidr.Some? ==> ValidCidr(rule.cidr.value))
    && ValidPorts(rule.ports)
  }

  predicate ValidNetwork(n: NetworkOptions) {
    && (n.egress.Some? ==> forall r <- n.egress.value :: ValidEgressRule(r))
    && (n.egress.Some? && n.denyEgress == Some(true) ==> n.egress.value == [])
    && (n.ingress.Some? ==> forall r <- n.ingress.value :: ValidIngressRule(r))
  }

  datatype Fault = BadEgressRule(index: nat) | RulesDespiteDeny | BadIngressRule(index: nat)

  /** What validation throws, if anything: the first bad rule. */
  ghost predicate Rejects(fault: Option<Fault>, n: NetworkOptions) {
    var egress, ingress := ListOf(n.egress), ListOf(n.ingress);
    match fault
    case None => ValidNetwork(n)
    case Some(BadEgressRule(i)) =>
      i < |egress| && !ValidEgressRule(egress[i]) && forall j | 0 <= j < i :: ValidEgressRule(egress[j])
    case Some(RulesDespiteDeny) =>
      n.denyEgress == Some(true) && egress != [] && forall j | 0 <= j < |egress| :: ValidEgressRule(egress[j])
    case Some(BadIngressRule(i)) =>
      i < |ingress| && !ValidIngressRule(ingress[i]) && forall j | 0 <= j < i :: ValidIngressRule(ingress[j])
  }

  /** `validateNetworkOptions`, for the network. */
  method ValidateNetworkOptions(n: NetworkOptions) returns (fault: Option<Fault>)
    ensures Rejects(fault, n)
    ensures fault.None? <==> ValidNetwork(n)
  {
    var egress, ingress := ListOf(n.egress), ListOf(n.ingress);
    hide ValidEgressRule, ValidIngressRule;
    var i := 0;
    while i < |egress|
      invariant 0 <= i <= |egress|
      invariant forall j | 0 <= j < i :: ValidEgressRule(egress[j])
    {
      if !ValidEgressRule(egress[i]) {
        assert egress[i] in n.egress.value;
        return Some(BadEgressRule(i));
      }
      i := i + 1;
    }
    if n.denyEgress == Some(true) && |egress| > 0 {
      return Some(RulesDespiteDeny);
    }
    i := 0;
    while i < |ingress|
      invariant 0 <= i <= |ingress|
      invariant forall j | 0 <= j < i :: ValidIngressRule(ingress[j])
    {
      if !ValidIngressRule(ingress[i]) {
        assert ingress[i] in n.ingress.value;
        return Some(BadIngressRule(i));
      }
      i := i + 1;
    }
    return None;
  }

  // ----- Writing -----------------------------------------------------------------------

  function ToStoredPort(p: PortRange): StoredPort {
    StoredPort(p.port, OrElse(p.endPort, 0), OrElse(p.protocol, ""))
  }

  function ToStoredPorts(ports: Option<seq<PortRange>>): seq<StoredPort> {
    var s := ListOf(ports);
    seq(|s|, i requires 0 <= i < |s| => ToStoredPort(s[i]))
  }

  function ToStoredCidr(block: CidrBlock): StoredCidr { StoredCidr(block.cidr, ListOf(block.exceptCidrs)) }

  /** `toProtoEgressDestination`; a hostname that does not normalise throws before this. */
  function ToDestination(rule: EgressRule): Peer
    requires rule.dnsName.Some? ==> NormalizeDnsName(rule.dnsName.value).Some?
  {
    if rule.dnsName.Some? then HttpsHostname(NormalizeDnsName(rule.dnsName.value).value)
    else if rule.cidr.Some? then Cidr(ToStoredCidr(rule.cidr.value))
    else if rule.tenant.Some? then TenantPeer(Known(rule.tenant.value))
    else if rule.selector.Some? then
      var s := rule.selector.value;
      Selector(s.podLabels, OrElse(s.namespaceLabels, map[]))
    else Any(true)
  }

  function ToStoredEgress(rule: EgressRule): StoredEgress
    requires ValidEgressRule(rule)
  {
    StoredEgress(ToDestination(rule), ToStoredPorts(rule.ports), [])
  }

  function ToStoredIngress(rule: IngressRule): StoredIngress {
    StoredIngress(
      if rule.cidr.Some? then Cidr(ToStoredCidr(rule.cidr.value))
      else if rule.tenant.Some? then TenantPeer(Known(rule.tenant.value))
      else Any(true),
      ToStoredPorts(rule.ports))
  }

  const EMPTY_SPEC := Spec(None, None, DnsUnspecified, [], [])

  /** `toProtoNetwork`: nothing at all when nothing is set. */
  function ToStored(n: NetworkOptions): Option<Spec>
    requires ValidNetwork(n)
  {
    var egress, ingress := ListOf(n.egress), ListOf(n.ingress);
    if n.denyEgress.None? && n.denyIngress.None? && n.dnsEgress.None? && egress == [] && ingress == [] then None
    else
      Some(Spec(n.denyEgress, n.denyIngress, if n.dnsEgress.Some? then Mode(n.dnsEgress.value) else DnsUnspecified,
                seq(|egress|, i requires 0 <= i < |egress| => ToStoredEgress(egress[i])),
                seq(|ingress|, i requires 0 <= i < |ingress| => ToStoredIngress(ingress[i]))))
  }

  /** The spec of a create or update request. */
  function RequestSpec(n: NetworkOptions): Spec
    requires ValidNetwork(n)
  {
    if ToStored(n).Some? then ToStored(n).value else EMPTY_SPEC
  }

  // ----- Reading -----------------------------------------------------------------------

  /** An empty text reads as none. */
  function Filled(s: Option<string>): Option<string> {
    if s == Some("") then None else s
  }

  function ToSdkPort(p: StoredPort): PortRange {
    PortRange(p.port, if p.endPort == 0 then None else Some(p.endPort), Filled(Some(p.protocol)))
  }

  function ToSdkPorts(ports: seq<StoredPort>): Option<seq<PortRange>> {
    if ports == [] then None else Some(seq(|ports|, i requires 0 <= i < |ports| => ToSdkPort(ports[i])))
  }

  function ToSdkCidr(block: StoredCidr): CidrBlock {
    CidrBlock(block.cidr, if block.except == [] then None else Some(block.except))
  }

  const NO_EGRESS := EgressRule(None, None, None, None, None, None)
  const NO_INGRESS := IngressRule(None, None, None, None)

  /** `toSdkConfigEgressRule`: nothing for a rule the SDK cannot show. */
  function ToSdkEgress(rule: StoredEgress): Option<EgressRule> {
    var ports := ToSdkPorts(rule.ports);
    match rule.destination
    case HttpsHostname(name) =>
      if name == "" || |rule.httpsHostnameExcept| > 0 || !IsHttpsOnlyPorts(ports) then None
      else Some(NO_EGRESS.(dnsName := Some(name)))
    case Cidr(block) => Some(NO_EGRESS.(cidr := Some(ToSdkCidr(block)), ports := ports))
    case TenantPeer(scope) =>
      if scope.Known? then Some(NO_EGRESS.(tenant := Some(scope.tenant), ports := ports)) else None
    case Any(any) => if any then Some(NO_EGRESS.(any := Some(true), ports := ports)) else None
    case Selector(pod, ns) =>
      if pod == map[] then None
      else
        var selector := SelectorBlock(pod, if ns == map[] then None else Some(ns));
        Some(NO_EGRESS.(selector := Some(selector), ports := ports))
    case Other(_) => None
  }

  /** `toSdkConfigIngressRule`. */
  function ToSdkIngress(rule: StoredIngress): Option<IngressRule> {
    var ports := ToSdkPorts(rule.ports);
    match rule.source
    case Cidr(block) => Some(NO_INGRESS.(cidr := Some(ToSdkCidr(block)), ports := ports))
    case TenantPeer(scope) =>
      if scope.Known? then Some(NO_INGRESS.(tenant := Some(scope.tenant), ports := ports)) else None
    case Any(any) => if any then Some(NO_INGRESS.(any := Some(true), ports := ports)) else None
    case HttpsHostname(_) => None
    case Selector(_, _) => None
    case Other(_) => None
  }

  /** `toSdkDnsEgressMode`. */
  function ToSdkDns(mode: StoredDns): Option<DnsMode> {
    if mode.Mode? then Some(mode.mode) else None
  }

  /** Every rule mapped, or nothing when any one cannot be shown. */
  function AllOrNothing<P, R>(rules: seq<P>, toSdk: P -> Option<R>): Option<seq<R>> {
    if exists i | 0 <= i < |rules| :: toSdk(rules[i]).None? then None
    else Some(seq(|rules|, i requires 0 <= i < |rules| => toSdk(rules[i]).value))
  }

  function IfAny<R>(rules: Option<seq<R>>): Option<seq<R>> {
    if rules.None? || rules.value == [] then None else rules
  }

  function Read(spec: Spec): Reading {
    var egress, ingress := AllOrNothing(spec.egress, ToSdkEgress), AllOrNothing(spec.ingress, ToSdkIngress);
    Reading(
      NetworkOptions(spec.denyEgress, spec.denyIngress, ToSdkDns(spec.dnsEgress),
                     IfAny(egress), IfAny(ingress)),
      (if egress.None? then [Egress] else []) + (if ingress.None? then [Ingress] else []))
  }

  /** `toSdkConfigRules`. */
  method ToSdkConfigRules<P, R>(rules: seq<P>, toSdk: P -> Option<R>) returns (r: Option<seq<R>>)
    ensures r == AllOrNothing(rules, toSdk)
  {
    var mapped: seq<R> := [];
    var i := 0;
    while i < |rules|
      invariant 0 <= i <= |rules| && |mapped| == i
      invariant forall j | 0 <= j < i :: toSdk(rules[j]) == Some(mapped[j])
    {
      var sdkRule := toSdk(rules[i]);
      if sdkRule.None? {
        return None;
      }
      mapped := mapped + [sdkRule.value];
      i := i + 1;
    }
    assert mapped == AllOrNothing(rules, toSdk).value;
    return Some(mapped);
  }

  /** `toSdkNetworkConfig`, as far as the network document goes. */
  method ToSdkNetworkConfig(spec: Spec) returns (r: Reading)
    ensures r == Read(spec)
  {
    var unsupportedFields: seq<RuleList> := [];
    var egress := ToSdkConfigRules(spec.egress, ToSdkEgress);
    var ingress := ToSdkConfigRules(spec.ingress, ToSdkIngress);
    if egress.None? {
      unsupportedFields := unsupportedFields + [Egress];
    }
    if ingress.None? {
      unsupportedFields := unsupportedFields + [Ingress];
    }
    r := Reading(
      NetworkOptions(spec.denyEgress, spec.denyIngress, ToSdkDns(spec.dnsEgress),
                     IfAny(egress), IfAny(ingress)),
      unsupportedFields);
  }

  // ----- The canonical form --------------------------------------------------------------

  function CanonicalPort(p: PortRange): PortRange { p.(protocol := Filled(p.protocol)) }

  function CanonicalPorts(ports: Option<seq<PortRange>>): Option<seq<PortRange>> {
    var s := ListOf(ports);
    if s == [] then None else Some(seq(|s|, i requires 0 <= i < |s| => CanonicalPort(s[i])))
  }

  function CanonicalCidr(block: CidrBlock): CidrBlock {
    if block.exceptCidrs == Some([]) then block.(exceptCidrs := None) else block
  }

  function CanonicalSelector(s: SelectorBlock): SelectorBlock {
    if s.namespaceLabels == Some(map[]) then s.(namespaceLabels := None) else s
  }

  /** Names normalised, a hostname rule's ports dropped, `any: false` and empty parts left out. */
  function CanonicalEgress(rule: EgressRule): EgressRule
    requires ValidEgressRule(rule)
  {
    EgressRule(
      if rule.dnsName.Some? then NormalizeDnsName(rule.dnsName.value) else None,
      if rule.cidr.Some? then Some(CanonicalCidr(rule.cidr.value)) else None,
      rule.tenant,
      if rule.any == Some(true) then rule.any else None,
      if rule.selector.Some? then Some(CanonicalSelector(rule.selector.value)) else None,
      if rule.dnsName.Some? then None else CanonicalPorts(rule.ports))
  }

  function CanonicalIngress(rule: IngressRule): IngressRule {
    IngressRule(
      if rule.cidr.Some? then Some(CanonicalCidr(rule.cidr.value)) else None,
      rule.tenant,
      if rule.any == Some(true) then rule.any else None,
      CanonicalPorts(rule.ports))
  }

  function Canonical(n: NetworkOptions): NetworkOptions
    requires ValidNetwork(n)
  {
    var egress, ingress := ListOf(n.egress), ListOf(n.ingress);
    n.(egress := if egress == [] then None
                 else Some(seq(|egress|, i requires 0 <= i < |egress| => CanonicalEgress(egress[i]))),
       ingress := if ingress == [] then None
                  else Some(seq(|ingress|, i requires 0 <= i < |ingress| => CanonicalIngress(ingress[i]))))
  }

  // ----- Reading undoes writing ------------------------------------------------------------

  lemma {:induction false} PortsRoundTrip(ports: Option<seq<PortRange>>)
    requires ValidPorts(ports)
    ensures ToSdkPorts(ToStoredPorts(ports)) == CanonicalPorts(ports)
  {
    if ListOf(ports) != [] {
      forall i | 0 <= i < |ports.value|
        ensures ToSdkPort(ToStoredPort(ports.value[i])) == CanonicalPort(ports.value[i])
      {
        assert ValidPortRange(ports.value[i]);
      }
      assert ToSdkPorts(ToStoredPorts(ports)).value == CanonicalPorts(ports).value;
    }
  }

  lemma {:induction false} HttpsPortsRoundTrip(ports: Option<seq<PortRange>>)
    requires ValidPorts(ports) && IsHttpsOnlyPorts(ports)
    ensures IsHttpsOnlyPorts(ToSdkPorts(ToStoredPorts(ports)))
  {
    PortsRoundTrip(ports);
    if ListOf(ports) != [] {
      forall p <- CanonicalPorts(ports).value ensures IsHttps443(p) {
        var i :| 0 <= i < |ports.value| && p == CanonicalPorts(ports).value[i];
        assert p == CanonicalPort(ports.value[i]) && IsHttps443(ports.value[i]);
      }
    }
  }

  lemma {:induction false} EgressRoundTrip(rule: EgressRule)
    requires ValidEgressRule(rule)
    ensures ToSdkEgress(ToStoredEgress(rule)) == Some(CanonicalEgress(rule))
  {
    PortsRoundTrip(rule.ports);
    if rule.dnsName.Some? {
      HttpsPortsRoundTrip(rule.ports);
    }
    hide ValidPorts, IsHttpsOnlyPorts, ToSdkPorts, ToStoredPorts, CanonicalPorts;
  }

  lemma {:induction false} IngressRoundTrip(rule: IngressRule)
    requires ValidIngressRule(rule)
    ensures ToSdkIngress(ToStoredIngress(rule)) == Some(CanonicalIngress(rule))
  {
    PortsRoundTrip(rule.ports);
    hide ValidPorts, ToSdkPorts, ToStoredPorts, CanonicalPorts;
  }

  lemma {:induction false} AllShown<P, R>(rules: seq<P>, toSdk: P -> Option<R>, shown: seq<R>)
    requires |shown| == |rules| && forall i | 0 <= i < |rules| :: toSdk(rules[i]) == Some(shown[i])
    ensures AllOrNothing(rules, toSdk) == Some(shown)
  {
    assert AllOrNothing(rules, toSdk).value == shown;
  }

  /** Whatever validation accepts is stored in full: it reads back in canonical form, with nothing unsupported. */
  lemma {:induction false} ReadUndoesWrite(n: NetworkOptions)
    requires ValidNetwork(n)
    ensures Read(RequestSpec(n)) == Reading(Canonical(n), [])
  {
    EgressListRoundTrip(n);
    IngressListRoundTrip(n);
    hide AllOrNothing, ToSdkEgress, ToSdkIngress, ToStoredEgress, ToStoredIngress, CanonicalEgress, CanonicalIngress;
  }

  lemma {:induction false} EgressListRoundTrip(n: NetworkOptions)
    requires ValidNetwork(n)
    ensures AllOrNothing(RequestSpec(n).egress, ToSdkEgress) == Some(ListOf(Canonical(n).egress))
  {
    var rules, stored, shown := ListOf(n.egress), RequestSpec(n).egress, ListOf(Canonical(n).egress);
    forall i | 0 <= i < |rules| ensures ToSdkEgress(stored[i]) == Some(shown[i]) {
      EgressRoundTrip(rules[i]);
    }
    AllShown(stored, ToSdkEgress, shown);
  }

  lemma {:induction false} IngressListRoundTrip(n: NetworkOptions)
    requires ValidNetwork(n)
    ensures AllOrNothing(RequestSpec(n).ingress, ToSdkIngress) == Some(ListOf(Canonical(n).ingress))
  {
    var rules, stored, shown := ListOf(n.ingress), RequestSpec(n).ingress, ListOf(Canonical(n).ingress);
    forall i | 0 <= i < |rules| ensures ToSdkIngress(stored[i]) == Some(shown[i]) {
      IngressRoundTrip(rules[i]);
    }
    AllShown(stored, ToSdkIngress, shown);
  }

  // ----- Canonical forms stay put -----------------------------------------------------------

  lemma {:induction false} CanonicalPortsAgain(ports: Option<seq<PortRange>>)
    requires ValidPorts(ports)
    ensures ValidPorts(CanonicalPorts(ports)) && CanonicalPorts(CanonicalPorts(ports)) == CanonicalPorts(ports)
  {
    if ListOf(ports) != [] {
      forall i | 0 <= i < |ports.value| ensures ValidPortRange(CanonicalPort(ports.value[i])) {
        assert ValidPortRange(ports.value[i]);
      }
      assert CanonicalPorts(CanonicalPorts(ports)).value == CanonicalPorts(ports).value;
    }
  }

  lemma {:induction false} CanonicalEgressAgain(rule: EgressRule)
    requires ValidEgressRule(rule)
    ensures ValidEgressRule(CanonicalEgress(rule))
    ensures CanonicalEgress(CanonicalEgress(rule)) == CanonicalEgress(rule)
  {
    CanonicalPortsAgain(rule.ports);
    if rule.dnsName.Some? {
      NormalizeIsIdempotent(rule.dnsName.value);
    }
    hide CanonicalPorts, NormalizeDnsName, Blank, IsHttps443, ValidPortRange;
  }

  lemma {:induction false} CanonicalIngressAgain(rule: IngressRule)
    requires ValidIngressRule(rule)
    ensures ValidIngressRule(CanonicalIngress(rule))
    ensures CanonicalIngress(CanonicalIngress(rule)) == CanonicalIngress(rule)
  {
    CanonicalPortsAgain(rule.ports);
    hide CanonicalPorts, Blank, ValidPortRange;
  }

  /** What is read back is accepted again, and writing it changes nothing more. */
  lemma {:induction false} CanonicalIsIdempotent(n: NetworkOptions)
    requires ValidNetwork(n)
    ensures ValidNetwork(Canonical(n)) && Canonical(Canonical(n)) == Canonical(n)
    ensures Read(RequestSpec(Canonical(n))) == Read(RequestSpec(n))
  {
    var egress, ingress := ListOf(n.egress), ListOf(n.ingress);
    var c := Canonical(n);
    forall i | 0 <= i < |egress|
      ensures ValidEgressRule(c.egress.value[i]) && CanonicalEgress(c.egress.value[i]) == c.egress.value[i]
    {
      CanonicalEgressAgain(egress[i]);
    }
    forall i | 0 <= i < |ingress|
      ensures ValidIngressRule(c.ingress.value[i]) && CanonicalIngress(c.ingress.value[i]) == c.ingress.value[i]
    {
      CanonicalIngressAgain(ingress[i]);
    }
    hide ValidEgressRule, ValidIngressRule, CanonicalEgress, CanonicalIngress, Read, RequestSpec;
    assert c.egress.Some? ==> Canonical(c).egress.value == c.egress.value;
    assert c.ingress.Some? ==> Canonical(c).ingress.value == c.ingress.value;
    ReadUndoesWrite(n);
    ReadUndoesWrite(c);
  }
}
