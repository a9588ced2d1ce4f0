/**
 Updating a stored network config (runtime/network-config.ts, and the update request of
 mappers.ts) beside other writers. A config carries the number of writes made to it, which
 is its etag: it is never used again. Others may write anything before either request
 of the update arrives.
 */
module NetworkUpdate {
  import opened Wrappers
  import opened NetworkCodec

  datatype Field = DenyEgress | DenyIngress | DnsEgress | EgressList | IngressList

  /** A config on the server. */
  datatype Store = Store(spec: Spec, version: nat)

  /** The caller cannot tell a write whose answer was lost from one that failed. */
  datatype Result =
    | NothingToWrite | Blocked(list: RuleList) | TimedOut | EtagMismatch | Updated(before: Spec, after: Spec)
    | ReadFailed(error: nat) | WriteFailed(error: nat) | AnswerLost(error: nat, before: Spec, after: Spec)

  /** Whether the write arrives, and its answer. */
  datatype Delivery = Delivered | Dropped(error: nat) | NoAnswer(error: nat)

  /** One call: the document, the mask and etag the caller gave, and what the world does meanwhile. */
  datatype Update = Update(
    network: NetworkOptions, updateMask: Option<seq<Field>>, etag: Option<nat>,
    /* whether reads carry an etag */ suppliesEtags: bool,
    /* whether time runs out before the write */ late: bool, readError: Option<nat>, delivery: Delivery)

  // ----- The server ---------------------------------------------------------------------

  function After(store: Store, writes: seq<Spec>): Store {
    if writes == [] then store else Store(writes[|writes| - 1], store.version + |writes|)
  }

  function Cleared(deny: Option<bool>): Option<bool> { if deny.None? then Some(false) else deny }

  /** The masked fields are written, an unset one cleared; the others stay. */
  function Apply(mask: seq<Field>, incoming: Spec, stored: Spec): Spec {
    Spec(
      if DenyEgress in mask then Cleared(incoming.denyEgress) else stored.denyEgress,
      if DenyIngress in mask then Cleared(incoming.denyIngress) else stored.denyIngress,
      if DnsEgress in mask then incoming.dnsEgress else stored.dnsEgress,
      if EgressList in mask then incoming.egress else stored.egress,
      if IngressList in mask then incoming.ingress else stored.ingress)
  }

  // ----- The client ---------------------------------------------------------------------

  function PushIf(fields: seq<Field>, f: Field, isSet: bool): seq<Field> {
    if isSet then fields + [f] else fields
  }

  /** `setFields`. */
  function SetFields(n: NetworkOptions): seq<Field> {
    var a := PushIf([], DenyEgress, n.denyEgress.Some?);
    var b := PushIf(a, DenyIngress, n.denyIngress.Some?);
    var c := PushIf(b, DnsEgress, n.dnsEgress.Some?);
    var d := PushIf(c, EgressList, n.egress.Some?);
    PushIf(d, IngressList, n.ingress.Some?)
  }

  function MaskOf(u: Update): seq<Field> {
    if u.updateMask.Some? then u.updateMask.value else SetFields(u.network)
  }

  /** `[...new Set(mask)]`. */
  function Unique(mask: seq<Field>): seq<Field> {
    if mask == [] then []
    else
      var init, f := mask[..|mask| - 1], mask[|mask| - 1];
      if f in init then Unique(init) else Unique(init) + [f]
  }

  function RuleLists(mask: seq<Field>): seq<RuleList> {
    (if EgressList in mask then [Egress] else []) + (if IngressList in mask then [Ingress] else [])
  }

  const UNSET := NetworkOptions(None, None, None, None, None)

  /** An empty mask sends no fields. */
  function Sent(u: Update): NetworkOptions { if MaskOf(u) == [] then UNSET else u.network }

  function FirstBlocked(lists: seq<RuleList>, unsupported: seq<RuleList>): Option<RuleList> {
    if lists == [] then None
    else if lists[0] in unsupported then Some(lists[0])
    else FirstBlocked(lists[1..], unsupported)
  }

  /** The write, pinned to an etag if there is one. */
  function Write(u: Update, etag: Option<nat>, store: Store): Result
    requires ValidNetwork(u.network)
  {
    if u.late then TimedOut
    else
      var stale := etag.Some? && etag.value != store.version;
      var after := Apply(Unique(MaskOf(u)), RequestSpec(Sent(u)), store.spec);
      match u.delivery
      case Delivered => if stale then EtagMismatch else Updated(store.spec, after)
      case Dropped(e) => WriteFailed(e)
      case NoAnswer(e) => if stale then WriteFailed(e) else AnswerLost(e, store.spec, after)
  }

  /** Whether the server wrote. */
  predicate Wrote(r: Result) { r.Updated? || r.AnswerLost? }

  /** The whole call, with other writes before the read and before the write. */
  function Call(u: Update, store: Store, beforeRead: seq<Spec>, beforeWrite: seq<Spec>): Result
    requires ValidNetwork(u.network)
  {
    var read := After(store, beforeRead);
    var lists := RuleLists(MaskOf(u));
    var blocked := FirstBlocked(lists, Read(read.spec).unsupportedFields);
    var written := After(read, beforeWrite);
    if u.updateMask.None? && MaskOf(u) == [] then NothingToWrite
    else if lists == [] then Write(u, u.etag, written)
    else if u.readError.Some? then ReadFailed(u.readError.value)
    else if blocked.Some? then Blocked(blocked.value)
    else Write(u, if u.etag.Some? then u.etag else if u.suppliesEtags then Some(read.version) else None, written)
  }

  // ----- What a successful update leaves alone --------------------------------------------

  ghost predicate ShowableEgress(rule: StoredEgress) { ToSdkEgress(rule).Some? }

  ghost predicate ShowableIngress(rule: StoredIngress) { ToSdkIngress(rule).Some? }

  /** No rule the SDK cannot show has gone. */
  ghost predicate KeepsForeignRules(r: Result) {
    Wrote(r) ==>
      && (forall rule <- r.before.egress :: !ShowableEgress(rule) ==> rule in r.after.egress)
      && (forall rule <- r.before.ingress :: !ShowableIngress(rule) ==> rule in r.after.ingress)
  }

  /** The write is pinned to what was read, and a caller's etag is one it can have got before the call. */
  predicate Pinned(u: Update, version: nat) {
    if u.etag.Some? then u.etag.value <= version else u.suppliesEtags
  }

  lemma {:induction false} UniqueKeeps(mask: seq<Field>, f: Field)
    ensures f in Unique(mask) <==> f in mask
  {
    if mask != [] {
      UniqueKeeps(mask[..|mask| - 1], f);
      assert mask == mask[..|mask| - 1] + [mask[|mask| - 1]];
    }
  }

  /** The request names each field once. */
  lemma {:induction false} UniqueIsUnique(mask: seq<Field>, i: nat, j: nat)
    requires i < j < |Unique(mask)|
    ensures Unique(mask)[i] != Unique(mask)[j]
  {
    var init, f := mask[..|mask| - 1], mask[|mask| - 1];
    UniqueKeeps(init, f);
    if j < |Unique(init)| {
      UniqueIsUnique(init, i, j);
    }
  }

  lemma {:induction false} NotBlocked(lists: seq<RuleList>, unsupported: seq<RuleList>, list: RuleList)
    requires FirstBlocked(lists, unsupported).None? && list in lists
    ensures list !in unsupported
  {
    if lists[0] != list {
      NotBlocked(lists[1..], unsupported, list);
    }
  }

  lemma {:induction false} AllShowable(spec: Spec)
    ensures Egress !in Read(spec).unsupportedFields ==> forall rule <- spec.egress :: ShowableEgress(rule)
    ensures Ingress !in Read(spec).unsupportedFields ==> forall rule <- spec.ingress :: ShowableIngress(rule)
  {
  }

  /** A pinned update never loses a foreign rule, whatever other writers do and whenever they do it. */
  lemma {:induction false} PinnedUpdateIsSafe(u: Update, store: Store, beforeRead: seq<Spec>, beforeWrite: seq<Spec>)
    requires ValidNetwork(u.network) && Pinned(u, store.version)
    ensures KeepsForeignRules(Call(u, store, beforeRead, beforeWrite))
  {
    var r := Call(u, store, beforeRead, beforeWrite);
    if Wrote(r) {
      var read, mask, lists := After(store, beforeRead), MaskOf(u), RuleLists(MaskOf(u));
      UniqueKeeps(mask, EgressList);
      UniqueKeeps(mask, IngressList);
      if lists != [] {
        assert r.before == read.spec;
        AllShowable(read.spec);
        if EgressList in mask {
          NotBlocked(lists, Read(read.spec).unsupportedFields, Egress);
        }
        if IngressList in mask {
          NotBlocked(lists, Read(read.spec).unsupportedFields, Ingress);
        }
      }
      hide Read, Unique, RequestSpec;
    }
  }

  const FOREIGN := StoredEgress(Other(0), [], [])
  const FOREIGN_SPEC := EMPTY_SPEC.(egress := [FOREIGN], ingress := [StoredIngress(Other(0), [])])

  /** Nothing the SDK writes is foreign. */
  lemma {:induction false} RequestHasNoForeign(n: NetworkOptions)
    requires ValidNetwork(n)
    ensures FOREIGN_SPEC.egress[0] !in RequestSpec(n).egress
    ensures FOREIGN_SPEC.ingress[0] !in RequestSpec(n).ingress
  {
  }

  /** `count` writes by others, the last of them a document with foreign rules. */
  ghost function ForeignWrites(count: nat): seq<Spec>
    requires count > 0
  {
    seq(count - 1, _ => EMPTY_SPEC) + [FOREIGN_SPEC]
  }

  /** Nothing but the server keeps the update from writing. */
  predicate Arrives(u: Update) { !u.late && u.readError.None? && !u.delivery.Dropped? }

  /** Unpinned, there is a moment for another writer at which a foreign rule is lost. */
  lemma {:induction false} UnpinnedUpdateLosesRules(u: Update, version: nat, count: nat)
    requires ValidNetwork(u.network) && RuleLists(MaskOf(u)) != [] && Arrives(u) && !Pinned(u, version)
    requires count == if u.etag.Some? then u.etag.value - version else 1
    ensures !KeepsForeignRules(Call(u, Store(EMPTY_SPEC, version), [], ForeignWrites(count)))
  {
    var store, writes, mask := Store(EMPTY_SPEC, version), ForeignWrites(count), MaskOf(u);
    assert Read(EMPTY_SPEC).unsupportedFields == [];
    NothingBlocked(RuleLists(mask));
    assert After(store, []) == store;
    assert After(store, writes) == Store(FOREIGN_SPEC, version + count);
    hide Read, RequestSpec, KeepsForeignRules;
    var r := Call(u, store, [], writes);
    assert Wrote(r) && r.before == FOREIGN_SPEC;
    assert r.after == Apply(Unique(mask), RequestSpec(Sent(u)), FOREIGN_SPEC);
    OverwritingLosesRules(u, r);
  }

  lemma {:induction false} OverwritingLosesRules(u: Update, r: Result)
    requires ValidNetwork(u.network) && RuleLists(MaskOf(u)) != [] && Wrote(r)
    requires r.before == FOREIGN_SPEC && r.after == Apply(Unique(MaskOf(u)), RequestSpec(Sent(u)), FOREIGN_SPEC)
    ensures !KeepsForeignRules(r)
  {
    UniqueKeeps(MaskOf(u), EgressList);
    UniqueKeeps(MaskOf(u), IngressList);
    RequestHasNoForeign(Sent(u));
    hide RequestSpec, Unique;
    assert !ShowableEgress(FOREIGN_SPEC.egress[0]) && !ShowableIngress(FOREIGN_SPEC.ingress[0]);
  }

  lemma {:induction false} NothingBlocked(lists: seq<RuleList>)
    ensures FirstBlocked(lists, []).None?
  {
    if lists != [] {
      NothingBlocked(lists[1..]);
    }
  }

  /** Exactly: an update of rules is safe beside every other writer if and only if it is pinned. */
  lemma {:induction false} SafeIffPinned(u: Update, version: nat)
    requires ValidNetwork(u.network) && RuleLists(MaskOf(u)) != [] && Arrives(u)
    ensures Pinned(u, version) <==>
      forall spec, beforeRead, beforeWrite :: KeepsForeignRules(Call(u, Store(spec, version), beforeRead, beforeWrite))
  {
    hide Call, KeepsForeignRules;
    if Pinned(u, version) {
      forall spec, beforeRead, beforeWrite
        ensures KeepsForeignRules(Call(u, Store(spec, version), beforeRead, beforeWrite))
      {
        PinnedUpdateIsSafe(u, Store(spec, version), beforeRead, beforeWrite);
      }
    } else {
      UnpinnedUpdateLosesRules(u, version, if u.etag.Some? then u.etag.value - version else 1);
    }
  }

  /** Whatever is written is what the update names, as the caller gave it, and nothing else. */
  lemma {:induction false} OnlyMaskedFieldsChange(
      u: Update, store: Store, beforeRead: seq<Spec>, beforeWrite: seq<Spec>)
    requires ValidNetwork(u.network)
    ensures var r := Call(u, store, beforeRead, beforeWrite);
      Wrote(r) ==>
        && r.before == After(After(store, beforeRead), beforeWrite).spec
        && r.after == Apply(MaskOf(u), RequestSpec(u.network), r.before)
        && (MaskOf(u) == [] ==> r.after == r.before)
  {
    var mask := MaskOf(u);
    UniqueKeeps(mask, DenyEgress);
    UniqueKeeps(mask, DenyIngress);
    UniqueKeeps(mask, DnsEgress);
    UniqueKeeps(mask, EgressList);
    UniqueKeeps(mask, IngressList);
    hide Read, Unique, RequestSpec;
  }

  predicate IsSet(n: NetworkOptions, f: Field) {
    match f
    case DenyEgress => n.denyEgress.Some?
    case DenyIngress => n.denyIngress.Some?
    case DnsEgress => n.dnsEgress.Some?
    case EgressList => n.egress.Some?
    case IngressList => n.ingress.Some?
  }

  /** Without a mask, exactly the fields set on the document are written. */
  lemma {:induction false} DefaultMaskIsTheSetFields(n: NetworkOptions, f: Field)
    ensures f in SetFields(n) <==> IsSet(n, f)
  {
  }

  /** A rule list that was written reads back as the caller gave it, in canonical form. */
  lemma {:induction false} WrittenListReadsBack(u: Update, store: Store, beforeRead: seq<Spec>, beforeWrite: seq<Spec>)
    requires ValidNetwork(u.network) && Wrote(Call(u, store, beforeRead, beforeWrite))
    ensures var after := Read(Call(u, store, beforeRead, beforeWrite).after);
      && (EgressList in MaskOf(u) ==>
           Egress !in after.unsupportedFields && after.network.egress == Canonical(u.network).egress)
      && (IngressList in MaskOf(u) ==>
           Ingress !in after.unsupportedFields && after.network.ingress == Canonical(u.network).ingress)
  {
    OnlyMaskedFieldsChange(u, store, beforeRead, beforeWrite);
    ReadUndoesWrite(u.network);
    hide Call, RequestSpec, Canonical;
  }
}
