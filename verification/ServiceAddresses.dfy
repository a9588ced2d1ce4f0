/** The service addresses a sandbox handle shows, merged response by response (sandbox.ts). */
module ServiceAddresses {
  import opened Wrappers
  import opened Worlds

  datatype Port = Port(port: nat, name: Option<string>)

  datatype Address = Address(port: nat, name: string, address: string)

  datatype Metadata = Metadata(
    status: Option<Status>, exposedPorts: Option<seq<Port>>, serviceAddresses: Option<seq<Address>>)

  /** `ADDRESS_RETAIN_STATUSES` and `STARTING_STATUSES`. */
  predicate Retains(status: Option<Status>) {
    status == Some(Creating) || status == Some(Running)
  }

  predicate Starting(status: Status) {
    status == Pending || status == Creating
  }

  // ----- Keys -------------------------------------------------------------------------

  function Digit(d: nat): char
    requires d < 10
  {
    "0123456789"[d]
  }

  /** `String(port)`. */
  function Decimal(n: nat): string {
    if n < 10 then [Digit(n)] else Decimal(n / 10) + [Digit(n % 10)]
  }

  function ServiceAddressKey(port: nat, name: Option<string>): string {
    Decimal(port) + "\0" + if name.Some? then name.value else ""
  }

  function KeyOf(a: Address): string { ServiceAddressKey(a.port, Some(a.name)) }

  function KeyOfPort(p: Port): string { ServiceAddressKey(p.port, p.name) }

  lemma {:induction false} DecimalIsInjective(m: nat, n: nat)
    requires Decimal(m) == Decimal(n)
    ensures m == n
  {
    if m >= 10 && n >= 10 {
      var a, b := Decimal(m / 10), Decimal(n / 10);
      assert (a + [Digit(m % 10)])[..|a|] == a && (b + [Digit(n % 10)])[..|b|] == b;
      DecimalIsInjective(m / 10, n / 10);
      assert Digit(m % 10) == Digit(n % 10);
      DigitIsInjective(m % 10, n % 10);
    } else {
      DecimalIsLong(m);
      DecimalIsLong(n);
      if m < 10 && n < 10 {
        DigitIsInjective(m, n);
      }
    }
  }

  lemma DigitIsInjective(c: nat, d: nat)
    requires c < 10 && d < 10 && Digit(c) == Digit(d)
    ensures c == d
  {
  }

  lemma {:induction false} DecimalIsLong(n: nat)
    ensures |Decimal(n)| >= 1 && (n >= 10 ==> |Decimal(n)| >= 2)
  {
  }

  lemma {:induction false} DecimalHasNoNul(n: nat)
    ensures '\0' !in Decimal(n)
  {
    if n >= 10 {
      DecimalHasNoNul(n / 10);
    }
  }

  /** A text splits in one way at its first NUL. */
  lemma {:induction false} SplitAtNul(a: string, b: string, x: string, y: string)
    requires '\0' !in a && '\0' !in b && a + "\0" + x == b + "\0" + y
    ensures a == b && x == y
  {
    var s := a + "\0" + x;
    assert s[|a|] == '\0' && s[|b|] == '\0';
    assert s[..|a|] == a && s[..|b|] == b && s[|a| + 1..] == x && s[|b| + 1..] == y;
  }

  function NameOf(name: Option<string>): string { if name.Some? then name.value else "" }

  /** Two services share a key just when they share a port and a name, an absent name being the empty one. */
  lemma {:induction false} KeyIsInjective(p: nat, m: Option<string>, q: nat, n: Option<string>)
    ensures ServiceAddressKey(p, m) == ServiceAddressKey(q, n) <==> p == q && NameOf(m) == NameOf(n)
  {
    if ServiceAddressKey(p, m) == ServiceAddressKey(q, n) {
      DecimalHasNoNul(p);
      DecimalHasNoNul(q);
      SplitAtNul(Decimal(p), Decimal(q), NameOf(m), NameOf(n));
      DecimalIsInjective(p, q);
    }
  }

  // ----- What a merge is ----------------------------------------------------------------

  function Keys(addresses: seq<Address>): seq<string> {
    seq(|addresses|, i requires 0 <= i < |addresses| => KeyOf(addresses[i]))
  }

  function PortKeys(ports: seq<Port>): seq<string> {
    seq(|ports|, i requires 0 <= i < |ports| => KeyOfPort(ports[i]))
  }

  /** The keys that are in `have`, each once, in the order they first appear. */
  function Shown(keys: seq<string>, have: set<string>): seq<string> {
    if keys == [] then []
    else
      var init, k := keys[..|keys| - 1], keys[|keys| - 1];
      if k in have && k !in init then Shown(init, have) + [k] else Shown(init, have)
  }

  /** An address is known for a key that came in now, or that came earlier and is still exposed. */
  predicate Known(k: string, previous: seq<Address>, ports: seq<Port>, incoming: seq<Address>) {
    k in Keys(incoming) || (k in Keys(previous) && k in PortKeys(ports))
  }

  function KnownKeys(previous: seq<Address>, ports: seq<Port>, incoming: seq<Address>): set<string> {
    (set k | k in Keys(incoming)) + (set k | k in Keys(previous) && k in PortKeys(ports))
  }

  /** An incoming address wins over an earlier one. */
  predicate From(a: Address, previous: seq<Address>, incoming: seq<Address>) {
    if KeyOf(a) in Keys(incoming) then a in incoming else a in previous
  }

  /** The addresses to show: every known key once, exposed ports first and in their order. */
  predicate IsMerge(merged: seq<Address>, previous: seq<Address>, ports: seq<Port>, incoming: seq<Address>) {
    && Keys(merged) == Shown(PortKeys(ports) + Keys(incoming), KnownKeys(previous, ports, incoming))
    && forall a <- merged :: From(a, previous, incoming)
  }

  lemma {:induction false} ShownMembers(keys: seq<string>, have: set<string>, k: string)
    ensures k in Shown(keys, have) <==> k in keys && k in have
  {
    if keys != [] {
      ShownMembers(keys[..|keys| - 1], have, k);
      assert keys == keys[..|keys| - 1] + [keys[|keys| - 1]];
    }
  }

  ghost predicate Distinct(keys: seq<string>) {
    forall i, j | 0 <= i < j < |keys| :: keys[i] != keys[j]
  }

  lemma {:induction false} ShownIsDistinct(keys: seq<string>, have: set<string>)
    ensures Distinct(Shown(keys, have))
  {
    if keys != [] {
      var init, k := keys[..|keys| - 1], keys[|keys| - 1];
      ShownIsDistinct(init, have);
      ShownMembers(init, have, k);
    }
  }

  /**
   A merge shows no key twice, and shows exactly those that came in now, and those that came
   earlier and are still exposed, with the address that came last.
   */
  lemma {:induction false} MergeIsExact(merged: seq<Address>, previous: seq<Address>, ports: seq<Port>,
                                        incoming: seq<Address>, k: string)
    requires IsMerge(merged, previous, ports, incoming)
    ensures Distinct(Keys(merged))
    ensures k in Keys(merged) <==> k in Keys(incoming) || (k in Keys(previous) && k in PortKeys(ports))
    ensures forall a <- merged :: a in incoming || (a in previous && KeyOf(a) !in Keys(incoming))
  {
    var all, have := PortKeys(ports) + Keys(incoming), KnownKeys(previous, ports, incoming);
    assert k in have <==> Known(k, previous, ports, incoming);
    ShownIsDistinct(all, have);
    ShownMembers(all, have, k);
    hide Shown, Keys, PortKeys, KnownKeys;
  }

  /** With distinct keys in, there is only one merge. */
  lemma {:induction false} MergeIsUnique(a: seq<Address>, b: seq<Address>, previous: seq<Address>, ports: seq<Port>,
                                         incoming: seq<Address>)
    requires IsMerge(a, previous, ports, incoming) && IsMerge(b, previous, ports, incoming)
    requires Distinct(Keys(previous)) && Distinct(Keys(incoming))
    ensures a == b
  {
    assert |a| == |Keys(a)| == |Keys(b)| == |b|;
    forall i | 0 <= i < |a| ensures a[i] == b[i] {
      assert Keys(a)[i] == KeyOf(a[i]) && Keys(b)[i] == KeyOf(b[i]);
      assert From(a[i], previous, incoming) && From(b[i], previous, incoming);
      SameKeySameAddress(if KeyOf(a[i]) in Keys(incoming) then incoming else previous, a[i], b[i]);
    }
  }

  lemma {:induction false} SameKeySameAddress(list: seq<Address>, a: Address, b: Address)
    requires Distinct(Keys(list)) && a in list && b in list && KeyOf(a) == KeyOf(b)
    ensures a == b
  {
    var i :| 0 <= i < |list| && list[i] == a;
    var j :| 0 <= j < |list| && list[j] == b;
    assert Keys(list)[i] == Keys(list)[j];
  }

  /** Two addresses, or an address and a port, are of one service just when they agree on port and name. */
  lemma {:induction false} SameServiceIff(a: Address, b: Address, p: Port)
    ensures KeyOf(a) == KeyOf(b) <==> a.port == b.port && a.name == b.name
    ensures KeyOf(a) == KeyOfPort(p) <==> a.port == p.port && a.name == if p.name.Some? then p.name.value else ""
  {
    KeyIsInjective(a.port, Some(a.name), b.port, Some(b.name));
    KeyIsInjective(a.port, Some(a.name), p.port, p.name);
    hide ServiceAddressKey;
  }

  /** The exposed ports come first and in their order, then what else came in, in its order. */
  lemma {:induction false} MergeIsInOrder(merged: seq<Address>, previous: seq<Address>, ports: seq<Port>,
                                          incoming: seq<Address>, i: nat, j: nat)
    requires IsMerge(merged, previous, ports, incoming) && i < j < |merged|
    ensures var all := PortKeys(ports) + Keys(incoming);
      exists p | 0 <= p < |all| :: ComesFirst(all, p, KeyOf(merged[i]), KeyOf(merged[j]))
  {
    var all, shown := PortKeys(ports) + Keys(incoming), Keys(merged);
    ShownIsInOrder(all, KnownKeys(previous, ports, incoming), i, j);
    assert shown[i] == KeyOf(merged[i]) && shown[j] == KeyOf(merged[j]);
    hide Shown, Keys, PortKeys, KnownKeys, KeyOf;
    var p :| 0 <= p < |all| && ComesFirst(all, p, shown[i], shown[j]);
    assert ComesFirst(all, p, KeyOf(merged[i]), KeyOf(merged[j]));
  }

  /** One key is at `p`, and the other has not been there up to then. */
  predicate ComesFirst(keys: seq<string>, p: nat, first: string, second: string)
    requires p < |keys|
  {
    keys[p] == first && second !in keys[..p + 1]
  }

  lemma {:induction false} ShownIsInOrder(keys: seq<string>, have: set<string>, i: nat, j: nat)
    requires i < j < |Shown(keys, have)|
    ensures exists p | 0 <= p < |keys| :: ComesFirst(keys, p, Shown(keys, have)[i], Shown(keys, have)[j])
  {
    var init, k := keys[..|keys| - 1], keys[|keys| - 1];
    var shown, all := Shown(init, have), Shown(keys, have);
    assert all == shown || (all == shown + [k] && k !in init);
    if j < |shown| {
      ShownIsInOrder(init, have, i, j);
      var p :| 0 <= p < |init| && ComesFirst(init, p, shown[i], shown[j]);
      assert keys[..p + 1] == init[..p + 1];
      assert ComesFirst(keys, p, all[i], all[j]);
    } else {
      ShownMembers(init, have, shown[i]);
      var p :| 0 <= p < |init| && init[p] == shown[i];
      assert keys[..p + 1] == init[..p + 1];
      assert ComesFirst(keys, p, all[i], all[j]);
    }
  }
}
