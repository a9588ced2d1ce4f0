/**
 Hostnames that an egress rule may grant (internal/network.ts). Trimming and lower-casing
 are JavaScript's, as far as they can lead to an accepted name: a character outside ASCII
 is never part of one, but for the Kelvin sign, which lower-cases to "k".
 */
module DnsNames {
  import opened Sequences
  import opened Wrappers

  const DNS1123_SUBDOMAIN_MAX := 253

  /** The white space and line ends that `trim` removes. */
  predicate IsSpace(c: char) {
    c in "\t\n\U{000B}\U{000C}\r \U{00A0}\U{1680}\U{2028}\U{2029}\U{202F}\U{205F}\U{3000}\U{FEFF}"
    || '\U{2000}' <= c <= '\U{200A}'
  }

  function TrimStart(s: string): string {
    if s != "" && IsSpace(s[0]) then TrimStart(s[1..]) else s
  }

  function TrimEnd(s: string): string {
    if s != "" && IsSpace(s[|s| - 1]) then TrimEnd(s[..|s| - 1]) else s
  }

  function Trim(s: string): string { TrimEnd(TrimStart(s)) }

  function LowerChar(c: char): string {
    if 'A' <= c <= 'Z' then [c + ' '] else if c == '\U{212A}' then "k" else if c == '\U{0130}' then "i\U{0307}" else [c]
  }

  function Lower(s: string): string {
    if s == "" then "" else LowerChar(s[0]) + Lower(s[1..])
  }

  predicate IsLabelChar(c: char) {
    'a' <= c <= 'z' || '0' <= c <= '9' || c == '-'
  }

  /** `DNS1123_LABEL`: lower-case letters, digits and inner hyphens. */
  predicate IsLabel(s: string) {
    s != "" && s[0] != '-' && s[|s| - 1] != '-' && forall c <- s :: IsLabelChar(c)
  }

  predicate IsDns1123Subdomain(name: string) {
    |name| <= DNS1123_SUBDOMAIN_MAX && forall part <- Split(name, '.') :: IsLabel(part)
  }

  predicate IsDnsNameGrant(name: string) {
    && |name| <= DNS1123_SUBDOMAIN_MAX
    && if |name| >= 2 && name[..2] == "*." then IsDns1123Subdomain(name[2..]) else IsDns1123Subdomain(name)
  }

  /** `normalizeDnsName`; nothing when it throws. */
  function NormalizeDnsName(dnsName: string): Option<string> {
    var name := Lower(Trim(dnsName));
    if name == "" || name == "*" || !IsDnsNameGrant(name) then None else Some(name)
  }

  predicate IsGrantChar(c: char) {
    IsLabelChar(c) || c == '.' || c == '*'
  }

  lemma {:induction false} CharsComeFromParts(s: string, sep: char, i: nat)
    requires i < |s| && s[i] != sep
    ensures exists part <- Split(s, sep) :: s[i] in part
  {
    var init := s[..|s| - 1];
    var parts := Split(init, sep);
    var n := |parts| - 1;
    if i < |init| {
      CharsComeFromParts(init, sep, i);
      var k :| 0 <= k < |parts| && init[i] in parts[k];
      assert s[i] in Split(s, sep)[k];
    } else {
      assert s[i] in Split(s, sep)[n];
    }
  }

  lemma {:induction false} SubdomainChars(name: string)
    requires IsDns1123Subdomain(name)
    ensures name != "" && forall c <- name :: IsGrantChar(c)
  {
    assert name == "" ==> "" in Split(name, '.');
    forall i | 0 <= i < |name| ensures IsGrantChar(name[i]) {
      if name[i] != '.' {
        CharsComeFromParts(name, '.', i);
      }
    }
  }

  lemma {:induction false} GrantChars(name: string)
    requires IsDnsNameGrant(name)
    ensures name != "" && forall c <- name :: IsGrantChar(c)
  {
    if |name| >= 2 && name[..2] == "*." {
      SubdomainChars(name[2..]);
      assert name == name[..2] + name[2..];
    } else {
      SubdomainChars(name);
    }
  }

  lemma PlainChar(c: char)
    requires IsGrantChar(c)
    ensures LowerChar(c) == [c] && !IsSpace(c)
  {
  }

  lemma {:induction false} LowerOfPlain(s: string)
    requires forall c <- s :: IsGrantChar(c)
    ensures Lower(s) == s
  {
    if s != "" {
      PlainChar(s[0]);
      LowerOfPlain(s[1..]);
      hide LowerChar, IsGrantChar;
      assert s == [s[0]] + s[1..];
    }
  }

  lemma {:induction false} TrimOfPlain(s: string)
    requires s != "" && forall c <- s :: IsGrantChar(c)
    ensures Trim(s) == s
  {
    PlainChar(s[0]);
    PlainChar(s[|s| - 1]);
  }

  /** A name that has been accepted is already in the form it is accepted in. */
  lemma {:induction false} NormalizeIsIdempotent(dnsName: string)
    ensures NormalizeDnsName(dnsName).Some? ==>
      NormalizeDnsName(NormalizeDnsName(dnsName).value) == NormalizeDnsName(dnsName)
  {
    if NormalizeDnsName(dnsName).Some? {
      var name := NormalizeDnsName(dnsName).value;
      GrantChars(name);
      LowerOfPlain(name);
      TrimOfPlain(name);
      hide IsDnsNameGrant, Lower, Trim;
    }
  }

  /** A wildcard is one leftmost label, and nothing else. */
  lemma {:induction false} OneLeftmostWildcard(dnsName: string, i: nat)
    requires NormalizeDnsName(dnsName).Some? && i < |NormalizeDnsName(dnsName).value|
    requires NormalizeDnsName(dnsName).value[i] == '*'
    ensures var name := NormalizeDnsName(dnsName).value;
      i == 0 && |name| > 2 && name[1] == '.'
  {
    var name := NormalizeDnsName(dnsName).value;
    if |name| >= 2 && name[..2] == "*." {
      SubdomainChars(name[2..]);
      if i >= 2 {
        SubdomainHasNoStar(name[2..], i - 2);
      }
      assert name[1] == name[..2][1];
    } else {
      SubdomainHasNoStar(name, i);
    }
  }

  lemma {:induction false} SubdomainHasNoStar(name: string, i: nat)
    requires IsDns1123Subdomain(name) && i < |name|
    ensures name[i] != '*'
  {
    if name[i] != '.' {
      CharsComeFromParts(name, '.', i);
    }
  }
}
