/** Which hostnames and which rules are accepted, character by character (internal/network.ts). */
module NameLaws {
  import opened Sequences
  import opened Wrappers
  import opened DnsNames
  import opened NetworkCodec

  // ----- Hostnames ------------------------------------------------------------------------------

  /** A letter or digit: what a label may begin and end with. */
  predicate Alnum(c: char) { 'a' <= c <= 'z' || '0' <= c <= '9' }

  /** Letters, digits, hyphens and dots, beginning and ending with a letter or digit, with one on each side of a dot. */
  predicate NameLike(s: string) {
    s != "" && Alnum(s[0]) && Alnum(s[|s| - 1]) && forall i | 0 <= i < |s| :: NameChar(s, i)
  }

  predicate NameChar(s: string, i: nat)
    requires i < |s|
  {
    || Alnum(s[i])
    || (s[i] == '-' && i > 0)
    || (s[i] == '.' && 0 < i < |s| - 1 && Alnum(s[i - 1]) && Alnum(s[i + 1]))
  }

  /** The parts so far are labels, and the last one may become one. */
  predicate Partial(parts: seq<string>)
    requires parts != []
  {
    var n := |parts| - 1;
    && (forall p <- parts[..n] :: IsLabel(p))
    && (parts[n] != "" ==> parts[n][0] != '-')
    && forall c <- parts[n] :: IsLabelChar(c)
  }

  /** What a name may go on with. */
  predicate MayFollow(s: string, c: char) {
    if s == "" || s[|s| - 1] == '.' then Alnum(c)
    else if c == '.' then Alnum(s[|s| - 1])
    else Alnum(c) || c == '-'
  }

  predicate Grows(s: string) {
    s == "" || (Grows(s[..|s| - 1]) && MayFollow(s[..|s| - 1], s[|s| - 1]))
  }

  lemma {:induction false} LastPartEnds(s: string)
    ensures var parts := Split(s, '.');
      var last := parts[|parts| - 1];
      && (last == "" <==> s == "" || s[|s| - 1] == '.')
      && (last != "" ==> last[|last| - 1] == s[|s| - 1])
  {
  }

  lemma {:induction false} PartialIffGrows(s: string)
    ensures Partial(Split(s, '.')) <==> Grows(s)
  {
    if s != "" {
      var init, c := s[..|s| - 1], s[|s| - 1];
      PartialIffGrows(init);
      LastPartEnds(init);
      var parts := Split(init, '.');
      hide Split;
      OneMorePart(parts, c);
    }
  }

  lemma AllLabelsIff(parts: seq<string>)
    requires parts != []
    ensures var n := |parts| - 1;
      (forall p <- parts :: IsLabel(p)) <==> (forall p <- parts[..n] :: IsLabel(p)) && IsLabel(parts[n])
  {
    assert parts == parts[..|parts| - 1] + [parts[|parts| - 1]];
  }

  /** One character more, seen from the parts. */
  lemma {:induction false} OneMorePart(parts: seq<string>, c: char)
    requires parts != []
    ensures var n := |parts| - 1;
      var last := parts[n];
      var more := if c == '.' then parts + [""] else parts[..n] + [last + [c]];
      Partial(more) <==>
        && Partial(parts)
        && if last == "" then Alnum(c) else if c == '.' then Alnum(last[|last| - 1]) else Alnum(c) || c == '-'
  {
    var n := |parts| - 1;
    var last := parts[n];
    if c == '.' {
      assert (parts + [""])[..n + 1] == parts == parts[..n] + [last];
      LastLabelIff(last);
      AllLabelsIff(parts);
    } else {
      assert (parts[..n] + [last + [c]])[..n] == parts[..n];
      assert forall d <- last :: d in last + [c];
      assert c in last + [c];
    }
  }

  lemma {:induction false} GrowsAndEndsIff(s: string)
    ensures Grows(s) && s != "" && Alnum(s[|s| - 1]) <==> NameLike(s)
  {
    if Grows(s) && s != "" && Alnum(s[|s| - 1]) {
      GrownIsName(s);
    }
    if NameLike(s) {
      NameGrows(s, |s|);
      assert s[..|s|] == s;
    }
  }

  lemma {:induction false} GrownIsName(s: string)
    requires Grows(s) && s != ""
    ensures Alnum(s[0])
    ensures forall i | 0 <= i < |s| - 1 :: NameChar(s, i)
    ensures s[|s| - 1] == '.' ==> |s| > 1 && Alnum(s[|s| - 2])
  {
    var init := s[..|s| - 1];
    if init != "" {
      GrownIsName(init);
      forall i | 0 <= i < |s| - 1 ensures NameChar(s, i) {
        if i < |init| - 1 {
          assert NameChar(init, i);
        }
      }
    }
  }

  lemma {:induction false} NameGrows(s: string, n: nat)
    requires NameLike(s) && n <= |s|
    ensures Grows(s[..n])
  {
    if n > 0 {
      NameGrows(s, n - 1);
      assert s[..n][..n - 1] == s[..n - 1];
      assert NameChar(s, n - 1);
      assert n > 1 ==> NameChar(s, n - 2);
    }
  }

  /** A subdomain, without taking it apart. */
  lemma {:induction false} SubdomainIff(name: string)
    ensures IsDns1123Subdomain(name) <==> |name| <= 253 && NameLike(name)
  {
    PartialIffGrows(name);
    LastPartEnds(name);
    GrowsAndEndsIff(name);
    hide Grows, NameLike, Split, IsLabelChar;
    var parts := Split(name, '.');
    var n := |parts| - 1;
    LastLabelIff(parts[n]);
    AllLabelsIff(parts);
  }

  lemma {:induction false} LastLabelIff(last: string)
    ensures IsLabel(last) <==>
      && last != "" && last[0] != '-' && Alnum(last[|last| - 1])
      && forall c <- last :: IsLabelChar(c)
  {
    assert last != "" ==> last[|last| - 1] in last;
  }

  /** A hostname or a wildcard of one, at most 253 characters in all. */
  predicate Acceptable(name: string) {
    |name| <= 253 && (NameLike(name) || (|name| > 2 && name[0] == '*' && name[1] == '.' && NameLike(name[2..])))
  }

  /** A name is accepted exactly when it is acceptable once trimmed and in lower case, and comes out that way. */
  lemma {:induction false} NormalizesIff(dnsName: string)
    ensures var name := Lower(Trim(dnsName));
      NormalizeDnsName(dnsName) == if Acceptable(name) then Some(name) else None
  {
    var name := Lower(Trim(dnsName));
    SubdomainIff(name);
    if |name| >= 2 {
      SubdomainIff(name[2..]);
      assert name[..2] == "*." <==> name[0] == '*' && name[1] == '.';
    }
    hide IsDns1123Subdomain, Lower, Trim;
    assert |name| >= 1 && name[0] == '*' ==> !NameLike(name);
  }

  predicate SpacesOnly(s: string) { forall c <- s :: IsSpace(c) }

  /** Trimming takes white space off the two ends, and all of it. */
  lemma {:induction false} TrimIs(s: string) returns (i: nat, j: nat)
    ensures i <= j <= |s| && Trim(s) == s[i..j] && SpacesOnly(s[..i]) && SpacesOnly(s[j..])
    ensures i < j ==> !IsSpace(s[i]) && !IsSpace(s[j - 1])
    ensures Trim(s) == "" <==> SpacesOnly(s)
  {
    i := TrimStartIs(s);
    var n := TrimEndIs(s[i..]);
    j := i + n;
    hide TrimStart, TrimEnd, IsSpace, SpacesOnly;
    SliceOfRest(s, i, n);
    OnlySpacesIff(s, i, j);
  }

  lemma OnlySpacesIff(s: string, i: nat, j: nat)
    requires i <= j <= |s| && SpacesOnly(s[..i]) && SpacesOnly(s[j..]) && (i < j ==> !IsSpace(s[i]))
    ensures SpacesOnly(s) <==> i == j
  {
    hide IsSpace;
    if i < j {
      assert s[i] in s;
    } else {
      assert s == s[..i] + s[j..];
    }
  }

  lemma SliceOfRest(s: string, i: nat, n: nat)
    requires i + n <= |s|
    ensures s[i..][..n] == s[i..i + n] && s[i..][n..] == s[i + n..]
  {
  }

  lemma {:induction false} TrimStartIs(s: string) returns (i: nat)
    ensures i <= |s| && TrimStart(s) == s[i..] && SpacesOnly(s[..i])
    ensures i < |s| ==> !IsSpace(s[i])
  {
    if s == "" || !IsSpace(s[0]) {
      return 0;
    }
    hide IsSpace;
    i := TrimStartIs(s[1..]);
    SliceOfTail(s, i);
    i := i + 1;
  }

  lemma SliceOfTail(s: string, k: nat)
    requires s != "" && k < |s|
    ensures s[1..][k..] == s[k + 1..] && s[..k + 1] == [s[0]] + s[1..][..k]
  {
  }

  lemma {:induction false} TrimEndIs(s: string) returns (n: nat)
    ensures n <= |s| && TrimEnd(s) == s[..n] && SpacesOnly(s[n..])
    ensures n > 0 ==> !IsSpace(s[n - 1])
  {
    if s == "" || !IsSpace(s[|s| - 1]) {
      return |s|;
    }
    hide IsSpace;
    var init := s[..|s| - 1];
    n := TrimEndIs(init);
    SliceOfInit(s, n);
  }

  lemma SliceOfInit(s: string, n: nat)
    requires s != "" && n < |s|
    ensures var init := s[..|s| - 1];
      init[..n] == s[..n] && s[n..] == init[n..] + [s[|s| - 1]]
  {
  }

  /** Lower case, letter by letter, for the characters that may be in an accepted name. */
  lemma {:induction false} LowerIs(s: string)
    requires forall c <- s :: c < 128 as char
    ensures |Lower(s)| == |s|
    ensures forall i | 0 <= i < |s| :: Lower(s)[i] == if 'A' <= s[i] <= 'Z' then s[i] + 32 as char else s[i]
  {
    if s != "" {
      assert s[0] in s && forall c <- s[1..] :: c in s;
      LowerIs(s[1..]);
      LowerOfAscii(s[0]);
      hide LowerChar;
    }
  }

  lemma LowerOfAscii(c: char)
    requires c < 128 as char
    ensures LowerChar(c) == [if 'A' <= c <= 'Z' then c + 32 as char else c]
  {
  }

  // ----- Rules ----------------------------------------------------------------------------------

  predicate HasText(s: string) { exists c <- s :: !IsSpace(c) }

  predicate PortsInRange(ports: seq<PortRange>) {
    forall p <- ports ::
      1 <= p.port <= 65535 && (p.endPort.Some? ==> p.port <= p.endPort.value <= 65535)
  }

  /** Nothing but TCP on port 443. */
  predicate HttpsOnly(ports: seq<PortRange>) {
    forall p <- ports ::
      && p.port == 443 && (p.endPort == None || p.endPort == Some(443))
      && (p.protocol.Some? ==>
           && |p.protocol.value| == 3 && p.protocol.value[0] in "tT" && p.protocol.value[1] in "cC"
           && p.protocol.value[2] in "pP")
  }

  predicate CidrHasText(cidr: Option<CidrBlock>) {
    cidr.Some? ==> HasText(cidr.value.cidr) && forall e <- ListOf(cidr.value.exceptCidrs) :: HasText(e)
  }

  lemma {:induction false} CidrIsValidIff(block: CidrBlock)
    ensures ValidCidr(block) <==> CidrHasText(Some(block))
  {
    var i, j := TrimIs(block.cidr);
    forall e <- ListOf(block.exceptCidrs) ensures Trim(e) != "" <==> HasText(e) {
      var k, l := TrimIs(e);
    }
    hide Trim, IsSpace;
  }

  lemma {:induction false} PortsAreValidIff(ports: Option<seq<PortRange>>)
    ensures ValidPorts(ports) <==> PortsInRange(ListOf(ports))
    ensures IsHttpsOnlyPorts(ports) <==> HttpsOnly(ListOf(ports))
  {
  }

  /** An egress rule names exactly one destination, and each part of it is in order. */
  lemma {:induction false} EgressIsAcceptedIff(rule: EgressRule)
    ensures ValidEgressRule(rule) <==>
      && (if rule.dnsName.Some? then 1 else 0) + (if rule.cidr.Some? then 1 else 0)
         + (if rule.tenant.Some? then 1 else 0) + (if rule.any == Some(true) then 1 else 0)
         + (if rule.selector.Some? then 1 else 0) == 1
      && (rule.dnsName.Some? ==> Acceptable(Lower(Trim(rule.dnsName.value))) && HttpsOnly(ListOf(rule.ports)))
      && CidrHasText(rule.cidr)
      && (rule.selector.Some? ==> rule.selector.value.podLabels != map[])
      && PortsInRange(ListOf(rule.ports))
  {
    if rule.dnsName.Some? {
      NormalizesIff(rule.dnsName.value);
    }
    if rule.cidr.Some? {
      CidrIsValidIff(rule.cidr.value);
    }
    PortsAreValidIff(rule.ports);
    hide ValidCidr, ValidPorts, IsHttpsOnlyPorts, NormalizeDnsName, CidrHasText, PortsInRange, HttpsOnly, Acceptable;
  }

  lemma {:induction false} IngressIsAcceptedIff(rule: IngressRule)
    ensures ValidIngressRule(rule) <==>
      && (if rule.cidr.Some? then 1 else 0) + (if rule.tenant.Some? then 1 else 0)
         + (if rule.any == Some(true) then 1 else 0) == 1
      && CidrHasText(rule.cidr)
      && PortsInRange(ListOf(rule.ports))
  {
    if rule.cidr.Some? {
      CidrIsValidIff(rule.cidr.value);
    }
    PortsAreValidIff(rule.ports);
    hide ValidCidr, ValidPorts, CidrHasText, PortsInRange;
  }

  /** A document is accepted exactly when its rules are, and egress rules do not stand beside denied egress. */
  lemma {:induction false} NetworkIsAcceptedIff(n: NetworkOptions)
    ensures ValidNetwork(n) <==>
      && (forall r <- ListOf(n.egress) :: ValidEgressRule(r))
      && (forall r <- ListOf(n.ingress) :: ValidIngressRule(r))
      && !(n.denyEgress == Some(true) && ListOf(n.egress) != [])
  {
  }
}
