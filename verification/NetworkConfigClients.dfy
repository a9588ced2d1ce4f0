/** `updateNetworkConfigRecord` against a server that others write to as well. */
module NetworkConfigClients {
  import opened Wrappers
  import opened NetworkCodec
  import opened NetworkUpdate
  import opened NetworkLaws

  class ConfigServer {
    var spec: Spec
    var version: nat
    const suppliesEtags: bool

    ghost function Stored(): Store
      reads this
    {
      Store(spec, version)
    }

    constructor (spec: Spec, version: nat, suppliesEtags: bool)
      ensures Stored() == Store(spec, version) && this.suppliesEtags == suppliesEtags
    {
      this.spec, this.version, this.suppliesEtags := spec, version, suppliesEtags;
    }

    /** Another client's writes. */
    method OthersWrite(writes: seq<Spec>)
      modifies this
      ensures Stored() == After(old(Stored()), writes)
    {
      var i := 0;
      while i < |writes|
        invariant 0 <= i <= |writes|
        invariant Stored() == After(old(Stored()), writes[..i])
      {
        spec, version := writes[i], version + 1;
        i := i + 1;
      }
      assert writes[..|writes|] == writes;
    }

    method Get() returns (reading: Reading, etag: Option<nat>)
      ensures reading == Read(spec)
      ensures etag == if suppliesEtags then Some(version) else None
    {
      reading := ToSdkNetworkConfig(spec);
      etag := if suppliesEtags then Some(version) else None;
    }

    /** Compares and swaps when the request carries an etag. */
    method Update(incoming: Spec, mask: seq<Field>, etag: Option<nat>) returns (r: Result)
      modifies this
      ensures r == if etag.Some? && etag.value != old(version) then EtagMismatch
                   else Updated(old(spec), Apply(mask, incoming, old(spec)))
      ensures Stored() == if r.Updated? then Store(r.after, old(version) + 1) else old(Stored())
    {
      if etag.Some? && etag.value != version {
        return EtagMismatch;
      }
      var before := spec;
      spec, version := Apply(mask, incoming, spec), version + 1;
      return Updated(before, spec);
    }
  }

  /** A write over a network that may drop it or its answer. */
  method Send(server: ConfigServer, incoming: Spec, mask: seq<Field>, etag: Option<nat>, delivery: Delivery)
    returns (r: Result)
    modifies server
    ensures server.Stored() == if Wrote(r) then Store(r.after, old(server.version) + 1) else old(server.Stored())
    ensures Wrote(r) ==> r.before == old(server.spec) && r.after == Apply(mask, incoming, old(server.spec))
    ensures var stale := etag.Some? && etag.value != old(server.version);
      match delivery
      case Delivered => if stale then r == EtagMismatch else r.Updated?
      case Dropped(e) => r == WriteFailed(e)
      case NoAnswer(e) => if stale then r == WriteFailed(e) else r.AnswerLost? && r.error == e
  {
    if delivery.Dropped? {
      return WriteFailed(delivery.error);
    }
    r := server.Update(incoming, mask, etag);
    if delivery.NoAnswer? {
      r := if r.Updated? then AnswerLost(delivery.error, r.before, r.after) else WriteFailed(delivery.error);
    }
  }

  /** What a call does to the store besides what others do to it. */
  ghost function Outcome(r: Option<Result>, meanwhile: Store): Store {
    if r.Some? && Wrote(r.value) then Store(r.value.after, meanwhile.version + 1) else meanwhile
  }

  /**
   Nothing is returned when the document itself is rejected. The writes that others make
   before the read, and between the read and the write, are arbitrary.
   */
  method UpdateNetworkConfigRecord(server: ConfigServer, u: Update, beforeRead: seq<Spec>, beforeWrite: seq<Spec>)
    returns (r: Option<Result>)
    requires u.suppliesEtags == server.suppliesEtags
    modifies server
    ensures r.None? <==> !ValidNetwork(u.network)
    ensures r.Some? ==> r.value == Call(u, old(server.Stored()), beforeRead, beforeWrite)
    ensures r.Some? && u.readError.None? ==> RefusalsAreExact(r.value, u, LastOf(old(server.spec), beforeRead))
    ensures server.Stored() == Outcome(r, After(After(old(server.Stored()), beforeRead), beforeWrite))
  {
    if ValidNetwork(u.network) {
      RefusesExactly(u, server.Stored(), beforeRead, beforeWrite);
    }
    hide RefusalsAreExact, LastOf;
    server.OthersWrite(beforeRead);
    var fault := ValidateNetworkOptions(u.network);
    hide ValidNetwork, RequestSpec, Read, After, Apply;
    if fault.Some? {
      server.OthersWrite(beforeWrite);
      return None;
    }
    var updateMask := MaskOf(u);
    if u.updateMask.None? && |updateMask| == 0 {
      server.OthersWrite(beforeWrite);
      return Some(NothingToWrite);
    }
    var etag := u.etag;
    var ruleLists := RuleLists(updateMask);
    if |ruleLists| > 0 {
      if u.readError.Some? {
        server.OthersWrite(beforeWrite);
        return Some(ReadFailed(u.readError.value));
      }
      var current, currentEtag := server.Get();
      var blocked := FirstBlocked(ruleLists, current.unsupportedFields);
      if blocked.Some? {
        server.OthersWrite(beforeWrite);
        return Some(Blocked(blocked.value));
      }
      etag := if etag.Some? then etag else currentEtag;
    }
    server.OthersWrite(beforeWrite);
    if u.late {
      return Some(TimedOut);
    }
    var sent := RequestSpec(if |updateMask| == 0 then UNSET else u.network);
    var result := Send(server, sent, Unique(updateMask), etag, u.delivery);
    return Some(result);
  }
}
