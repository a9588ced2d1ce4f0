/**
 Which rules the SDK cannot show, which updates that stops, and how every other call ends:
 rule by rule and field by field (mappers.ts, runtime/network-config.ts).
 */
module NetworkLaws {
  import opened Wrappers
  import DnsNames
  import opened NetworkCodec
  import opened NetworkUpdate

  // ----- What cannot be shown ---------------------------------------------------------------

  /** A stored port on which a hostname rule is not plain HTTPS. */
  predicate NotHttps(p: StoredPort) {
    p.port != 443 || p.endPort !in {0, 443} || (p.protocol != "" && !IsTcp(p.protocol))
  }

  predicate HiddenEgress(rule: StoredEgress) {
    match rule.destination
    case HttpsHostname(name) => name == "" || rule.httpsHostnameExcept != [] || exists p <- rule.ports :: NotHttps(p)
    case Cidr(_) => false
    case TenantPeer(scope) => scope.Unspecified? || scope.Unknown?
    case Any(any) => !any
    case Selector(podLabels, _) => podLabels == map[]
    case Other(_) => true
  }

  predicate HiddenIngress(rule: StoredIngress) {
    match rule.source
    case Cidr(_) => false
    case TenantPeer(scope) => scope.Unspecified? || scope.Unknown?
    case Any(any) => !any
    case HttpsHostname(_) => true
    case Selector(_, _) => true
    case Other(_) => true
  }

  lemma {:induction false} HttpsPortsIff(ports: seq<StoredPort>)
    ensures IsHttpsOnlyPorts(ToSdkPorts(ports)) <==> forall p <- ports :: !NotHttps(p)
  {
    if ports != [] {
      var shown := ToSdkPorts(ports).value;
      forall i | 0 <= i < |ports| ensures IsHttps443(shown[i]) <==> !NotHttps(ports[i]) {
      }
      hide IsHttps443, NotHttps;
      assert forall i | 0 <= i < |ports| :: shown[i] in shown && ports[i] in ports;
    }
  }

  lemma {:induction false} EgressIsHiddenIff(rule: StoredEgress)
    ensures ToSdkEgress(rule).None? <==> HiddenEgress(rule)
  {
    HttpsPortsIff(rule.ports);
    hide IsHttpsOnlyPorts, ToSdkPorts, NotHttps;
  }

  lemma {:induction false} IngressIsHiddenIff(rule: StoredIngress)
    ensures ToSdkIngress(rule).None? <==> HiddenIngress(rule)
  {
    hide ToSdkPorts;
  }

  /** A list with a rule the SDK cannot show. */
  predicate HiddenIn(list: RuleList, spec: Spec) {
    match list
    case Egress => exists rule <- spec.egress :: HiddenEgress(rule)
    case Ingress => exists rule <- spec.ingress :: HiddenIngress(rule)
  }

  /** A read names a list as unsupported exactly when it has such a rule, and then shows none of its rules. */
  lemma {:induction false} UnsupportedIff(spec: Spec)
    ensures Egress in Read(spec).unsupportedFields <==> HiddenIn(Egress, spec)
    ensures Ingress in Read(spec).unsupportedFields <==> HiddenIn(Ingress, spec)
    ensures HiddenIn(Egress, spec) || spec.egress == [] ==> Read(spec).network.egress.None?
    ensures HiddenIn(Ingress, spec) || spec.ingress == [] ==> Read(spec).network.ingress.None?
  {
    forall rule <- spec.egress ensures ToSdkEgress(rule).None? <==> HiddenEgress(rule) {
      EgressIsHiddenIff(rule);
    }
    forall rule <- spec.ingress ensures ToSdkIngress(rule).None? <==> HiddenIngress(rule) {
      IngressIsHiddenIff(rule);
    }
    hide ToSdkEgress, ToSdkIngress, HiddenEgress, HiddenIngress;
  }

  // ----- Which updates are refused ------------------------------------------------------------

  /** The caller's mask names the field; without a mask, the document sets it. */
  predicate Names(u: Update, f: Field) {
    if u.updateMask.Some? then f in u.updateMask.value
    else
      match f
      case DenyEgress => u.network.denyEgress.Some?
      case DenyIngress => u.network.denyIngress.Some?
      case DnsEgress => u.network.dnsEgress.Some?
      case EgressList => u.network.egress.Some?
      case IngressList => u.network.ingress.Some?
  }

  predicate NamesList(u: Update, list: RuleList) {
    Names(u, if list == Egress then EgressList else IngressList)
  }

  lemma {:induction false} MaskNames(u: Update, f: Field)
    ensures f in MaskOf(u) <==> Names(u, f)
  {
    DefaultMaskIsTheSetFields(u.network, f);
    hide SetFields;
  }

  /** What is stored after the others' writes: the last of them, if there is any. */
  function LastOf(spec: Spec, writes: seq<Spec>): Spec {
    if writes == [] then spec else writes[|writes| - 1]
  }

  /** The list is written and has a rule the SDK cannot show; egress is reported before ingress. */
  predicate RefusedFor(u: Update, list: RuleList, read: Spec) {
    && NamesList(u, list) && HiddenIn(list, read)
    && (list == Ingress ==> !(NamesList(u, Egress) && HiddenIn(Egress, read)))
  }

  /**
   An update is refused exactly when a list it writes, as read, has a rule the SDK cannot
   show. A list it leaves alone never stops it.
   */
  lemma {:induction false} BlockedIff(
      u: Update, store: Store, beforeRead: seq<Spec>, beforeWrite: seq<Spec>, list: RuleList)
    requires ValidNetwork(u.network) && u.readError.None?
    ensures Call(u, store, beforeRead, beforeWrite) == Blocked(list) <==>
            RefusedFor(u, list, LastOf(store.spec, beforeRead))
  {
    var read := After(store, beforeRead).spec;
    UnsupportedIff(read);
    MaskNames(u, EgressList);
    MaskNames(u, IngressList);
    hide Read, HiddenIn, MaskOf, RequestSpec, Unique, Apply, ValidNetwork;
    var mask, unsupported := MaskOf(u), Read(read).unsupportedFields;
    FirstOfTwo(mask, unsupported);
  }

  ghost predicate RefusalsAreExact(r: Result, u: Update, read: Spec) {
    forall list: RuleList :: r == Blocked(list) <==> RefusedFor(u, list, read)
  }

  lemma {:induction false} RefusesExactly(u: Update, store: Store, beforeRead: seq<Spec>, beforeWrite: seq<Spec>)
    requires ValidNetwork(u.network)
    ensures u.readError.None? ==>
      RefusalsAreExact(Call(u, store, beforeRead, beforeWrite), u, LastOf(store.spec, beforeRead))
  {
    if u.readError.None? {
      BlockedIff(u, store, beforeRead, beforeWrite, Egress);
      BlockedIff(u, store, beforeRead, beforeWrite, Ingress);
      hide Call, RefusedFor;
    }
  }

  lemma {:induction false} FirstOfTwo(mask: seq<Field>, unsupported: seq<RuleList>)
    ensures RuleLists(mask) == [] <==> EgressList !in mask && IngressList !in mask
    ensures FirstBlocked(RuleLists(mask), unsupported) ==
      if EgressList in mask && Egress in unsupported then Some(Egress)
      else if IngressList in mask && Ingress in unsupported then Some(Ingress)
      else None
  {
    var ingress: seq<RuleList> := if IngressList in mask then [Ingress] else [];
    assert FirstBlocked(ingress, unsupported) ==
      if IngressList in mask && Ingress in unsupported then Some(Ingress) else None;
    if EgressList in mask {
      assert RuleLists(mask)[1..] == ingress;
    } else {
      assert RuleLists(mask) == ingress;
    }
  }

  // ----- How every other call ends --------------------------------------------------------------

  /** A call that sends its write. */
  predicate Sends(u: Update, read: Spec) {
    && (u.updateMask.None? ==> u.network != UNSET)
    && !u.late
    && forall list: RuleList | NamesList(u, list) :: u.readError.None? && !HiddenIn(list, read)
  }

  /** The etag the write carries: the caller's, or the one read when a rule list is written. */
  predicate Stale(u: Update, readVersion: nat, version: nat) {
    if u.etag.Some? then u.etag.value != version
    else (NamesList(u, Egress) || NamesList(u, Ingress)) && u.suppliesEtags && readVersion != version
  }

  /** Which calls end before their write, and how. */
  lemma {:induction false} UnsentCallsEnd(u: Update, store: Store, beforeRead: seq<Spec>, beforeWrite: seq<Spec>)
    requires ValidNetwork(u.network)
    ensures var r, read := Call(u, store, beforeRead, beforeWrite), LastOf(store.spec, beforeRead);
      && (r == NothingToWrite <==> u.updateMask.None? && u.network == UNSET)
      && (r.ReadFailed? <==> u.readError.Some? && (NamesList(u, Egress) || NamesList(u, Ingress)))
      && (r.ReadFailed? ==> Some(r.error) == u.readError)
      && (Sends(u, read) <==> r !in {NothingToWrite, TimedOut} && !r.ReadFailed? && !r.Blocked?)
  {
    var r, mask := Call(u, store, beforeRead, beforeWrite), MaskOf(u);
    MaskNames(u, EgressList);
    MaskNames(u, IngressList);
    MaskIsEmptyIff(u);
    FirstOfTwo(mask, Read(After(store, beforeRead).spec).unsupportedFields);
    UnsupportedIff(LastOf(store.spec, beforeRead));
    hide Read, HiddenIn, MaskOf, RequestSpec, Unique, Apply, ValidNetwork, Names, FirstBlocked, RuleLists;
  }

  /** How a call that sends its write ends. */
  lemma {:induction false} SentCallsEnd(u: Update, store: Store, beforeRead: seq<Spec>, beforeWrite: seq<Spec>)
    requires ValidNetwork(u.network) && Sends(u, LastOf(store.spec, beforeRead))
    ensures var r := Call(u, store, beforeRead, beforeWrite);
      var stale := Stale(u, store.version + |beforeRead|, store.version + |beforeRead| + |beforeWrite|);
      match u.delivery
      case Delivered => if stale then r == EtagMismatch else r.Updated?
      case Dropped(e) => r == WriteFailed(e)
      case NoAnswer(e) => if stale then r == WriteFailed(e) else r.AnswerLost? && r.error == e
  {
    UnsentCallsEnd(u, store, beforeRead, beforeWrite);
    MaskNames(u, EgressList);
    MaskNames(u, IngressList);
    FirstOfTwo(MaskOf(u), Read(After(store, beforeRead).spec).unsupportedFields);
    hide Read, Sends, MaskOf, RequestSpec, Unique, Apply, ValidNetwork, Names, FirstBlocked, RuleLists;
  }

  lemma {:induction false} MaskIsEmptyIff(u: Update)
    ensures u.updateMask.None? ==> (MaskOf(u) == [] <==> u.network == UNSET)
  {
  }

  /** Field by field, what a write leaves behind: a named flag is as given, or false; an unnamed field is as it was. */
  lemma {:induction false} WrittenFieldsAre(u: Update, store: Store, beforeRead: seq<Spec>, beforeWrite: seq<Spec>)
    requires ValidNetwork(u.network) && Wrote(Call(u, store, beforeRead, beforeWrite))
    ensures var r := Call(u, store, beforeRead, beforeWrite);
      && r.before == LastOf(LastOf(store.spec, beforeRead), beforeWrite)
      && (r.after.denyEgress == if Names(u, DenyEgress) then Some(u.network.denyEgress == Some(true))
                                else r.before.denyEgress)
      && (r.after.denyIngress == if Names(u, DenyIngress) then Some(u.network.denyIngress == Some(true))
                                 else r.before.denyIngress)
      && (if Names(u, DnsEgress) then
            match u.network.dnsEgress
            case Some(mode) => r.after.dnsEgress == Mode(mode)
            case None => r.after.dnsEgress == DnsUnspecified
          else r.after.dnsEgress == r.before.dnsEgress)
      && (!Names(u, EgressList) ==> r.after.egress == r.before.egress)
      && (!Names(u, IngressList) ==> r.after.ingress == r.before.ingress)
  {
    OnlyMaskedFieldsChange(u, store, beforeRead, beforeWrite);
    MaskNames(u, DenyEgress);
    MaskNames(u, DenyIngress);
    MaskNames(u, DnsEgress);
    MaskNames(u, EgressList);
    MaskNames(u, IngressList);
    ClearedIs(u.network.denyEgress);
    ClearedIs(u.network.denyIngress);
    hide Call, MaskOf, Names, ValidNetwork, ToStoredEgress, ToStoredIngress, Cleared;
  }

  lemma {:induction false} ClearedIs(deny: Option<bool>)
    ensures Cleared(deny) == Some(deny == Some(true))
  {
    match deny
    case None =>
    case Some(d) => assert deny == Some(true) <==> d;
  }

  // ----- What is shown and what is kept -----------------------------------------------------------

  /** A read shows the flags, and each list whose rules it can all show, rule for rule. */
  lemma {:induction false} ReadShowsTheRest(spec: Spec)
    ensures var shown := Read(spec).network;
      && shown.denyEgress == spec.denyEgress && shown.denyIngress == spec.denyIngress
      && (forall mode: DnsMode :: shown.dnsEgress == Some(mode) <==> spec.dnsEgress == Mode(mode))
      && (!HiddenIn(Egress, spec) ==>
           && |ListOf(shown.egress)| == |spec.egress|
           && forall i | 0 <= i < |spec.egress| :: ToSdkEgress(spec.egress[i]) == Some(ListOf(shown.egress)[i]))
      && (!HiddenIn(Ingress, spec) ==>
           && |ListOf(shown.ingress)| == |spec.ingress|
           && forall i | 0 <= i < |spec.ingress| :: ToSdkIngress(spec.ingress[i]) == Some(ListOf(shown.ingress)[i]))
  {
    UnsupportedIff(spec);
    hide HiddenIn, ToSdkEgress, ToSdkIngress;
  }

  /** A rule that is shown says what is stored, and nothing else; a hostname's ports are left out. */
  lemma {:induction false} ShownEgressIs(rule: StoredEgress)
    requires !HiddenEgress(rule)
    ensures var shown := ToSdkEgress(rule);
      && shown.Some?
      && shown.value.dnsName == (if rule.destination.HttpsHostname? then Some(rule.destination.name) else None)
      && shown.value.tenant == (if rule.destination.TenantPeer? then Some(rule.destination.scope.tenant) else None)
      && shown.value.any == (if rule.destination.Any? then Some(true) else None)
      && (shown.value.cidr.Some? <==> rule.destination.Cidr?)
      && (rule.destination.Cidr? ==> ShowsCidr(rule.destination.block, shown.value.cidr.value))
      && (shown.value.selector.Some? <==> rule.destination.Selector?)
      && (rule.destination.Selector? ==>
           && shown.value.selector.value.podLabels == rule.destination.podLabels
           && OrElse(shown.value.selector.value.namespaceLabels, map[]) == rule.destination.namespaceLabels)
      && (if rule.destination.HttpsHostname? then shown.value.ports.None?
          else ShowsPorts(rule.ports, shown.value.ports))
  {
    EgressIsHiddenIff(rule);
    PortsAreShown(rule.ports);
    hide ShowsPorts, ToSdkPorts, HiddenEgress;
  }

  lemma {:induction false} ShownIngressIs(rule: StoredIngress)
    requires !HiddenIngress(rule)
    ensures var shown := ToSdkIngress(rule);
      && shown.Some?
      && shown.value.tenant == (if rule.source.TenantPeer? then Some(rule.source.scope.tenant) else None)
      && shown.value.any == (if rule.source.Any? then Some(true) else None)
      && (shown.value.cidr.Some? <==> rule.source.Cidr?)
      && (rule.source.Cidr? ==> ShowsCidr(rule.source.block, shown.value.cidr.value))
      && ShowsPorts(rule.ports, shown.value.ports)
  {
    IngressIsHiddenIff(rule);
    PortsAreShown(rule.ports);
    hide ShowsPorts, ToSdkPorts;
  }

  predicate ShowsCidr(stored: StoredCidr, shown: CidrBlock) {
    shown.cidr == stored.cidr && ListOf(shown.exceptCidrs) == stored.except && shown.exceptCidrs != Some([])
  }

  /** Port for port; an end of 0 and an empty protocol are not shown, nor is an empty list. */
  predicate ShowsPorts(stored: seq<StoredPort>, shown: Option<seq<PortRange>>) {
    && (shown.None? <==> stored == [])
    && |ListOf(shown)| == |stored|
    && forall i | 0 <= i < |stored| :: ShowsPort(stored[i], ListOf(shown)[i])
  }

  predicate ShowsPort(stored: StoredPort, shown: PortRange) {
    && shown.port == stored.port
    && shown.endPort == (if stored.endPort == 0 then None else Some(stored.endPort))
    && shown.protocol == (if stored.protocol == "" then None else Some(stored.protocol))
  }

  lemma {:induction false} PortsAreShown(ports: seq<StoredPort>)
    ensures ShowsPorts(ports, ToSdkPorts(ports))
  {
  }

  /** The canonical form keeps the lists rule for rule, and everything a rule says. */
  lemma {:induction false} CanonicalKeepsFields(n: NetworkOptions)
    requires ValidNetwork(n)
    ensures var c := Canonical(n);
      && (c.denyEgress, c.denyIngress, c.dnsEgress) == (n.denyEgress, n.denyIngress, n.dnsEgress)
      && |ListOf(c.egress)| == |ListOf(n.egress)| && |ListOf(c.ingress)| == |ListOf(n.ingress)|
      && (forall i | 0 <= i < |ListOf(n.egress)| :: SaysTheSame(ListOf(n.egress)[i], ListOf(c.egress)[i]))
      && (forall i | 0 <= i < |ListOf(n.ingress)| :: SaysTheSameIn(ListOf(n.ingress)[i], ListOf(c.ingress)[i]))
  {
    var egress, ingress := ListOf(n.egress), ListOf(n.ingress);
    forall i | 0 <= i < |egress| ensures SaysTheSame(egress[i], CanonicalEgress(egress[i])) {
      EgressSaysTheSame(egress[i]);
    }
    forall i | 0 <= i < |ingress| ensures SaysTheSameIn(ingress[i], CanonicalIngress(ingress[i])) {
      IngressSaysTheSame(ingress[i]);
    }
    hide SaysTheSame, SaysTheSameIn, CanonicalEgress, CanonicalIngress, ValidEgressRule, ValidIngressRule;
  }

  lemma {:induction false} EgressSaysTheSame(rule: EgressRule)
    requires ValidEgressRule(rule)
    ensures SaysTheSame(rule, CanonicalEgress(rule))
  {
    PortsSayTheSame(rule.ports);
    hide SamePorts, CanonicalPorts, ValidPorts, IsHttpsOnlyPorts, DnsNames.NormalizeDnsName;
  }

  lemma {:induction false} IngressSaysTheSame(rule: IngressRule)
    requires ValidIngressRule(rule)
    ensures SaysTheSameIn(rule, CanonicalIngress(rule))
  {
    PortsSayTheSame(rule.ports);
    hide SamePorts, CanonicalPorts, ValidPorts;
  }

  /** Two rules that differ only in a name's spelling, in defaults spelled out, and in a hostname's ports. */
  predicate SaysTheSame(a: EgressRule, b: EgressRule) {
    && a.dnsName.Some? == b.dnsName.Some?
    && (a.dnsName.Some? ==> b.ports.None? && DnsNames.NormalizeDnsName(a.dnsName.value) == b.dnsName)
    && SameCidr(a.cidr, b.cidr)
    && a.tenant == b.tenant
    && (a.any == Some(true) <==> b.any == Some(true))
    && a.selector.Some? == b.selector.Some?
    && (a.selector.Some? ==>
         && a.selector.value.podLabels == b.selector.value.podLabels
         && OrElse(a.selector.value.namespaceLabels, map[]) == OrElse(b.selector.value.namespaceLabels, map[]))
    && (a.dnsName.None? ==> SamePorts(a.ports, b.ports))
  }

  predicate SaysTheSameIn(a: IngressRule, b: IngressRule) {
    && SameCidr(a.cidr, b.cidr)
    && a.tenant == b.tenant
    && (a.any == Some(true) <==> b.any == Some(true))
    && SamePorts(a.ports, b.ports)
  }

  predicate SameCidr(a: Option<CidrBlock>, b: Option<CidrBlock>) {
    && a.Some? == b.Some?
    && (a.Some? ==>
         a.value.cidr == b.value.cidr && ListOf(a.value.exceptCidrs) == ListOf(b.value.exceptCidrs))
  }

  predicate SamePorts(a: Option<seq<PortRange>>, b: Option<seq<PortRange>>) {
    && |ListOf(a)| == |ListOf(b)|
    && forall i | 0 <= i < |ListOf(a)| ::
         var p, q := ListOf(a)[i], ListOf(b)[i];
         p.port == q.port && p.endPort == q.endPort && OrElse(p.protocol, "") == OrElse(q.protocol, "")
  }

  lemma {:induction false} PortsSayTheSame(ports: Option<seq<PortRange>>)
    ensures SamePorts(ports, CanonicalPorts(ports))
  {
  }
}
