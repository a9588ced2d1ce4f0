/** The part of a sandbox handle that its responses update: `updateMetadata` and `mergeServiceAddresses`. */
module SandboxHandles {
  import opened Wrappers
  import opened ServiceAddresses
  import opened Worlds

  lemma {:induction false} KeysGrow(list: seq<Address>, i: nat)
    requires i < |list|
    ensures Keys(list)[..i + 1] == Keys(list)[..i] + [KeyOf(list[i])]
  {
  }

  /** The keys that may be shown: of the ports still exposed and of the addresses that came in. */
  method LiveKeys(ports: seq<Port>, incoming: seq<Address>) returns (live: set<string>)
    ensures forall k :: k in live <==> k in PortKeys(ports) || k in Keys(incoming)
  {
    live := set k | k in PortKeys(ports);
    var i := 0;
    while i < |incoming|
      invariant 0 <= i <= |incoming|
      invariant forall k :: k in live <==> k in PortKeys(ports) || k in Keys(incoming)[..i]
    {
      live := live + {KeyOf(incoming[i])};
      KeysGrow(incoming, i);
      i := i + 1;
    }
    assert Keys(incoming)[..|incoming|] == Keys(incoming);
  }

  /** A list's addresses take the place of what a map held under their keys. */
  ghost predicate Overlaid(m: map<string, Address>, byKey: map<string, Address>, list: seq<Address>, i: nat,
                           live: Option<set<string>>)
    requires i <= |list|
  {
    && (forall k :: k in m <==> k in byKey || Takes(k, list, i, live))
    && forall k <- m ::
         if Takes(k, list, i, live) then m[k] in list && KeyOf(m[k]) == k else k in byKey && m[k] == byKey[k]
  }

  predicate Takes(k: string, list: seq<Address>, i: nat, live: Option<set<string>>)
    requires i <= |list|
  {
    (live.Some? ==> k in live.value) && k in Keys(list)[..i]
  }

  method Overlay(byKey: map<string, Address>, list: seq<Address>, live: Option<set<string>>)
    returns (m: map<string, Address>)
    ensures Overlaid(m, byKey, list, |list|, live)
  {
    m := byKey;
    var i := 0;
    assert Overlaid(m, byKey, list, 0, live);
    hide Overlaid, KeyOf;
    while i < |list|
      invariant 0 <= i <= |list|
      invariant Overlaid(m, byKey, list, i, live)
    {
      var key := KeyOf(list[i]);
      OverlayStep(m, byKey, list, i, live);
      if live.None? || key in live.value {
        m := m[key := list[i]];
      }
      i := i + 1;
    }
  }

  lemma {:induction false} OverlayStep(m: map<string, Address>, byKey: map<string, Address>, list: seq<Address>, i: nat,
                                       live: Option<set<string>>)
    requires i < |list| && Overlaid(m, byKey, list, i, live)
    ensures var key := KeyOf(list[i]);
      Overlaid(if live.None? || key in live.value then m[key := list[i]] else m, byKey, list, i + 1, live)
  {
    KeysGrow(list, i);
    hide Keys, KeyOf;
  }

  lemma {:induction false} OverlaidTwice(a: map<string, Address>, b: map<string, Address>,
                         previous: seq<Address>, ports: seq<Port>, incoming: seq<Address>, live: set<string>)
    requires forall k :: k in live <==> k in PortKeys(ports) || k in Keys(incoming)
    requires Overlaid(a, map[], previous, |previous|, Some(live)) && Overlaid(b, a, incoming, |incoming|, None)
    ensures b.Keys == KnownKeys(previous, ports, incoming)
    ensures forall k <- b :: KeyOf(b[k]) == k && From(b[k], previous, incoming)
  {
  }

  ghost predicate Marks(seen: set<string>, shown: seq<Address>) {
    forall k :: k in seen <==> k in Keys(shown)
  }

  ghost predicate TakenFrom(shown: seq<Address>, byKey: map<string, Address>) {
    forall a <- shown :: KeyOf(a) in byKey && a == byKey[KeyOf(a)]
  }

  lemma TakeOne(shown: seq<Address>, byKey: map<string, Address>, key: string)
    requires TakenFrom(shown, byKey) && key in byKey && KeyOf(byKey[key]) == key
    ensures TakenFrom(shown + [byKey[key]], byKey)
  {
  }

  /** The first loop over the exposed ports: their known addresses, in order. */
  method ShowPorts(ports: seq<Port>, byKey: map<string, Address>) returns (merged: seq<Address>, seen: set<string>)
    requires forall k <- byKey :: KeyOf(byKey[k]) == k
    ensures Keys(merged) == Shown(PortKeys(ports), byKey.Keys)
    ensures Marks(seen, merged) && TakenFrom(merged, byKey)
  {
    merged, seen := [], {};
    assert PortKeys(ports)[..|ports|] == PortKeys(ports);
    hide Marks, TakenFrom, Shown, Keys;
    var i := 0;
    while i < |ports|
      invariant 0 <= i <= |ports|
      invariant Keys(merged) == Shown(PortKeys(ports)[..i], byKey.Keys)
      invariant Marks(seen, merged) && TakenFrom(merged, byKey)
    {
      var key := KeyOfPort(ports[i]);
      NextShown(PortKeys(ports), i, byKey.Keys);
      assert PortKeys(ports)[i] == key;
      hide KeyOf, PortKeys, KeyOfPort;
      if key in byKey {
        TakeOne(merged, byKey, key);
        merged, seen := ShowOne(merged, seen, byKey[key]);
      }
      i := i + 1;
    }
  }

  lemma {:induction false} NextShown(keys: seq<string>, i: nat, have: set<string>)
    requires i < |keys|
    ensures Shown(keys[..i + 1], have) ==
      if keys[i] in have && keys[i] !in Shown(keys[..i], have)
      then Shown(keys[..i], have) + [keys[i]] else Shown(keys[..i], have)
  {
    assert keys[..i + 1][..i] == keys[..i];
    ShownMembers(keys[..i], have, keys[i]);
  }

  lemma {:induction false} KeysAppend(list: seq<Address>, a: Address)
    ensures Keys(list + [a]) == Keys(list) + [KeyOf(a)]
  {
  }

  ghost predicate DrawnFrom(merged: seq<Address>, shown: seq<Address>, incoming: seq<Address>) {
    forall a <- merged :: a in shown || a in incoming
  }

  lemma DrawOne(merged: seq<Address>, shown: seq<Address>, incoming: seq<Address>, j: nat)
    requires DrawnFrom(merged, shown, incoming) && j < |incoming|
    ensures DrawnFrom(merged + [incoming[j]], shown, incoming)
  {
  }

  ghost predicate AllKnown(incoming: seq<Address>, have: set<string>) {
    forall i | 0 <= i < |incoming| :: KeyOf(incoming[i]) in have
  }

  /** The second loop: what came in without an exposed port. */
  method ShowIncoming(ghost portKeys: seq<string>, incoming: seq<Address>, ghost have: set<string>,
                      shown: seq<Address>, already: set<string>)
    returns (merged: seq<Address>)
    requires Keys(shown) == Shown(portKeys, have)
    requires Marks(already, shown)
    requires AllKnown(incoming, have)
    ensures Keys(merged) == Shown(portKeys + Keys(incoming), have)
    ensures DrawnFrom(merged, shown, incoming)
  {
    merged := shown;
    var seen := already;
    var j := 0;
    assert incoming[..0] == [] && portKeys + Keys([]) == portKeys;
    assert incoming[..|incoming|] == incoming;
    hide Shown, Keys, KeyOf, Marks, AllKnown, DrawnFrom;
    while j < |incoming|
      invariant 0 <= j <= |incoming|
      invariant Keys(merged) == Shown(portKeys + Keys(incoming[..j]), have)
      invariant Marks(seen, merged)
      invariant DrawnFrom(merged, shown, incoming)
    {
      NextIncoming(portKeys, incoming, j, have);
      DrawOne(merged, shown, incoming, j);
      merged, seen := ShowOne(merged, seen, incoming[j]);
      j := j + 1;
    }
  }

  lemma {:induction false} NextIncoming(portKeys: seq<string>, incoming: seq<Address>, j: nat, have: set<string>)
    requires j < |incoming| && AllKnown(incoming, have)
    ensures var before := Shown(portKeys + Keys(incoming[..j]), have);
      Shown(portKeys + Keys(incoming[..j + 1]), have) ==
        if KeyOf(incoming[j]) in before then before else before + [KeyOf(incoming[j])]
  {
    var keys, k := portKeys + Keys(incoming[..j]), KeyOf(incoming[j]);
    assert incoming[..j + 1] == incoming[..j] + [incoming[j]];
    KeysAppend(incoming[..j], incoming[j]);
    ShownAppend(keys, k, have);
    hide Shown, Keys, KeyOf;
    assert portKeys + (Keys(incoming[..j]) + [k]) == keys + [k];
  }

  lemma ShownAppend(keys: seq<string>, k: string, have: set<string>)
    requires k in have
    ensures Shown(keys + [k], have) ==
      if k in Shown(keys, have) then Shown(keys, have) else Shown(keys, have) + [k]
  {
  }

  /** Shows one address, unless its key is shown already. */
  method ShowOne(shown: seq<Address>, already: set<string>, entry: Address)
    returns (merged: seq<Address>, seen: set<string>)
    requires Marks(already, shown)
    ensures merged == if KeyOf(entry) in Keys(shown) then shown else shown + [entry]
    ensures Keys(merged) == if KeyOf(entry) in Keys(shown) then Keys(shown) else Keys(shown) + [KeyOf(entry)]
    ensures Marks(seen, merged)
  {
    merged, seen := shown, already;
    var key := KeyOf(entry);
    KeysAppend(shown, entry);
    hide Keys, KeyOf;
    if key !in seen {
      merged := merged + [entry];
      seen := seen + {key};
    }
  }

  lemma KeyInKeys(list: seq<Address>, a: Address)
    requires a in list
    ensures KeyOf(a) in Keys(list)
  {
    var i :| 0 <= i < |list| && list[i] == a;
    assert Keys(list)[i] == KeyOf(a);
  }

  /** `mergeServiceAddresses`. */
  method MergeServiceAddresses(previous: Metadata, incoming: Metadata)
    returns (r: Option<seq<Address>>)
    ensures r.Some? ==>
      && Retains(incoming.status) && r.value != []
      && IsMerge(r.value, ListOf(previous.serviceAddresses), ListOf(incoming.exposedPorts),
                 ListOf(incoming.serviceAddresses))
    ensures r.None? && Retains(incoming.status) ==>
      KnownKeys(ListOf(previous.serviceAddresses), ListOf(incoming.exposedPorts),
                ListOf(incoming.serviceAddresses)) == {}
  {
    if !Retains(incoming.status) {
      return None;
    }
    var ports, before := ListOf(incoming.exposedPorts), ListOf(previous.serviceAddresses);
    var now := ListOf(incoming.serviceAddresses);
    if incoming.exposedPorts.None? && incoming.serviceAddresses.None? {
      return None;
    }
    var merged := Merge(before, ports, now);
    if merged == [] {
      NothingShown(before, ports, now);
      return None;
    }
    return Some(merged);
  }

  lemma {:induction false} NothingShown(previous: seq<Address>, ports: seq<Port>, incoming: seq<Address>)
    requires IsMerge([], previous, ports, incoming)
    ensures KnownKeys(previous, ports, incoming) == {}
  {
    forall k ensures k !in KnownKeys(previous, ports, incoming) {
      MergeIsExact([], previous, ports, incoming, k);
    }
  }

  method Merge(previous: seq<Address>, ports: seq<Port>, incoming: seq<Address>) returns (merged: seq<Address>)
    ensures IsMerge(merged, previous, ports, incoming)
  {
    var live := LiveKeys(ports, incoming);
    var kept := Overlay(map[], previous, Some(live));
    var byKey := Overlay(kept, incoming, None);
    OverlaidTwice(kept, byKey, previous, ports, incoming, live);
    forall i | 0 <= i < |incoming| ensures KeyOf(incoming[i]) in byKey {
      assert Keys(incoming)[i] in Keys(incoming);
    }
    forall a <- incoming ensures From(a, previous, incoming) {
      KeyInKeys(incoming, a);
    }
    hide Overlaid, PortKeys, Keys, KnownKeys;
    var shown, seen := ShowPorts(ports, byKey);
    merged := ShowIncoming(PortKeys(ports), incoming, byKey.Keys, shown, seen);
  }

  class SandboxHandle {
    var metadata: Metadata
    var startupPollStartedAt: Option<real>

    /** Addresses are shown only while the sandbox is being created or running, and none twice. */
    ghost predicate Valid()
      reads this
    {
      metadata.serviceAddresses.Some? ==>
        && Retains(metadata.status)
        && metadata.serviceAddresses.value != [] && Distinct(Keys(metadata.serviceAddresses.value))
    }

    constructor (metadata: Metadata, startupPollStartedAt: Option<real>)
      ensures this.metadata == metadata && this.startupPollStartedAt == startupPollStartedAt
    {
      this.metadata, this.startupPollStartedAt := metadata, startupPollStartedAt;
    }

    /** One response. Whatever the handle held before, it is valid afterwards. */
    method UpdateMetadata(incoming: Metadata)
      modifies this
      ensures Valid()
      ensures metadata.status == if incoming.status.Some? then incoming.status else old(metadata.status)
      ensures metadata.exposedPorts ==
        if ListOf(incoming.exposedPorts) == [] && old(metadata.exposedPorts).Some? then old(metadata.exposedPorts)
        else incoming.exposedPorts
      ensures metadata.serviceAddresses.Some? ==> incoming.status in {Some(Creating), Some(Running)}
      ensures incoming.status in {Some(Creating), Some(Running)} ==>
        IsMerge(ListOf(metadata.serviceAddresses), ListOf(old(metadata.serviceAddresses)),
                ListOf(incoming.exposedPorts), ListOf(incoming.serviceAddresses))
      ensures startupPollStartedAt ==
        if incoming.status in {None, Some(Pending), Some(Creating)} then old(startupPollStartedAt) else None
    {
      if incoming.status.Some? && !Starting(incoming.status.value) {
        startupPollStartedAt := None;
      }
      var addresses := MergeServiceAddresses(metadata, incoming);
      var exposedPorts :=
        if ListOf(incoming.exposedPorts) == [] && metadata.exposedPorts.Some? then metadata.exposedPorts
        else incoming.exposedPorts;
      if addresses.Some? {
        MergeIsExact(addresses.value, ListOf(metadata.serviceAddresses), ListOf(incoming.exposedPorts),
                     ListOf(incoming.serviceAddresses), "");
      } else {
        NothingKnown(PortKeys(ListOf(incoming.exposedPorts)) + Keys(ListOf(incoming.serviceAddresses)));
        assert Keys([]) == [];
      }
      hide KnownKeys, Shown, KeyOf, KeyOfPort;
      metadata := Metadata(
        if incoming.status.Some? then incoming.status else metadata.status, exposedPorts, addresses);
    }
  }

  lemma {:induction false} NothingKnown(keys: seq<string>)
    ensures Shown(keys, {}) == []
  {
    if keys != [] {
      NothingKnown(keys[..|keys| - 1]);
    }
  }
}
