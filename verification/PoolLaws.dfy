/**
 What the steps of the channel pool come to for their callers (direct-data-plane.ts), said of
 the pairs in the map, the channels and the leases alone.
 */
module PoolLaws {
  import opened Wrappers
  import opened OrderedMap
  import opened ChannelPool

  /** The last pair of the map: what was used last. */
  ghost predicate Latest<E>(m: seq<(string, E)>, q: (string, E)) {
    m != [] && m[|m| - 1] == q
  }

  ghost predicate SamePairsBut<E>(m: seq<(string, E)>, n: seq<(string, E)>, q: (string, E)) {
    (forall r <- m :: r != q ==> r in n) && (forall r <- n :: r != q ==> r in m)
  }

  /** Other leases and other channels are as they were. */
  ghost predicate OthersKept<E, L>(p: Pool<E, L>, q: Pool<E, L>, l: L, e: E) {
    && (forall x <- p.leases :: x != l ==> x in q.leases && q.leases[x] == p.leases[x])
    && (forall x <- p.recs :: x != e ==> x in q.recs && q.recs[x] == p.recs[x])
  }

  /**
   An acquire takes the channel cached under its key, and makes a new one only if there is
   none; it holds one lease more on it, and the channel is the latest of the map.
   */
  lemma {:induction false} AcquireTakesTheCached<E, L>(p: Pool<E, L>, key: string, e: E, l: L, maxIdle: nat)
    requires Inv(p, maxIdle) && Enabled(p, AcquireStep(key, e, l))
    ensures var q := Next(p, AcquireStep(key, e, l), maxIdle);
      && l in q.leases && q.leases[l] == LeaseRec(key, q.leases[l].entry, false)
      && var x := q.leases[l].entry;
         && Latest(q.order, (key, x)) && SamePairsBut(p.order, q.order, (key, x)) && OthersKept(p, q, l, x)
         && x in q.recs
         && if key in KeysOf(p.order) then
              && (key, x) in p.order && x in p.recs
              && q.recs[x] == p.recs[x].(activeLeases := p.recs[x].activeLeases + 1)
            else x == e && q.recs[x] == EntryRec(key, 1, false, false, 0)
  {
    var q := Next(p, AcquireStep(key, e, l), maxIdle);
    GetFinds(p.order, key);
    match Get(p.order, key) {
      case None =>
        DeleteAppended(p.order, key, e);
        assert q.order == p.order + [(key, e)];
      case Some(found) =>
        assert (key, found) in p.order;
        DeleteMembers(p.order, key);
        forall r <- p.order ensures r != (key, found) ==> r in q.order {
          if r.0 == key {
            KeyDecides(p.order, r, (key, found));
          }
        }
    }
  }

  /** The channel is out of the map for good. */
  ghost predicate Uncached<E, L>(p: Pool<E, L>, e: E) {
    forall q <- p.order :: q.1 != e
  }

  lemma {:induction false} UnmapUncaches<E, L>(p: Pool<E, L>, key: string, e: E)
    requires OrderOk(p) && e in p.recs && p.recs[e].key == key
    ensures Uncached(Unmap(p, key, e), e)
    ensures SamePairsBut(p.order, Unmap(p, key, e).order, (key, e))
  {
    GetIsMembership(p.order, key, e);
    DeleteMembers(p.order, key);
    forall r <- p.order ensures r != (key, e) ==> r in Unmap(p, key, e).order {
      if r.0 == key && (key, e) in p.order {
        KeyDecides(p.order, r, (key, e));
      }
    }
  }

  /** What a channel that is to be discarded becomes: out of the map, and closed with its last lease. */
  ghost predicate TakenOut<E, L>(p: Pool<E, L>, q: Pool<E, L>, e: E, holders: nat) {
    && Uncached(q, e) && e in p.recs && e in q.recs
    && q.recs[e].discardWhenIdle && q.recs[e].activeLeases == holders
    && q.recs[e].closed == (holders == 0)
    && q.recs[e].closeCalls == if holders == 0 then 1 else 0
  }

  lemma {:induction false} OneHolderLess<E, L>(p: Pool<E, L>, l: L)
    requires Consistent(p) && l in p.leases && !p.leases[l].released
    ensures p.leases[l].entry in p.recs
    ensures var e := p.leases[l].entry;
      && p.recs[e].key == p.leases[l].key && !p.recs[e].closed && p.recs[e].closeCalls == 0
      && p.recs[e].activeLeases == |Holders(p.leases, e) - {l}| + 1
  {
    var e := p.leases[l].entry;
    assert EntryOk(p, e);
    assert l in Holders(p.leases, e);
  }

  /** Eviction takes channels out of the map, and closes those; it changes nothing else. */
  lemma {:induction false} EvictionSpares<E, L>(p: Pool<E, L>, maxIdle: nat, e: E)
    requires OrderOk(p) && e in p.recs
    ensures var q := EvictIdle(p, maxIdle);
      && (forall r <- q.order :: r in p.order)
      && q.leases == p.leases && e in q.recs
      && (Uncached(p, e) ==> q.recs[e] == p.recs[e])
  {
    EvictIsSweep(p, maxIdle);
    SweepMembers(p.order, Idle(p), Excess(p, maxIdle));
    hide Sweep, Swept, EvictIdle;
  }

  lemma {:induction false} UnleaseDiscards<E, L>(p: Pool<E, L>, l: L)
    requires Consistent(p) && l in p.leases && !p.leases[l].released
    ensures p.leases[l].entry in p.recs
    ensures TakenOut(p, Returned(p, l, true), p.leases[l].entry, |Holders(p.leases, p.leases[l].entry) - {l}|)
  {
    var key, e := p.leases[l].key, p.leases[l].entry;
    OneHolderLess(p, l);
    UnmapUncaches(p, key, e);
    var m := Unmap(p, key, e);
    GetIsMembership(p.order, key, e);
    GetFinds(m.order, key);
    DeleteMembers(m.order, key);
    hide DistinctKeys, SortedBy, EntryOk;
  }

  /**
   A lease returned with `discard`, as after a connection that failed: its channel is in no
   pair of the map, marked, and closed once if nobody else holds it.
   */
  lemma {:induction false} DiscardingReleaseRetires<E, L>(p: Pool<E, L>, l: L, maxIdle: nat)
    requires Inv(p, maxIdle) && l in p.leases && !p.leases[l].released
    ensures var q := Next(p, ReleaseStep(l, true), maxIdle);
      && l in q.leases && q.leases[l].released
      && TakenOut(p, q, p.leases[l].entry, |Holders(p.leases, p.leases[l].entry) - {l}|)
  {
    var e := p.leases[l].entry;
    var r := Returned(p, l, true);
    UnleaseDiscards(p, l);
    ReturnedInOrder(p, l, true);
    hide Consistent, Returned, EvictIdle, Holders, OrderOk;
    EvictionSpares(r, maxIdle, e);
    NextOfRelease(p, l, true, maxIdle);
    hide Next, Inv;
  }

  lemma ReturnedInOrder<E, L>(p: Pool<E, L>, l: L, discard: bool)
    requires Consistent(p) && l in p.leases && !p.leases[l].released
    ensures p.leases[l].entry in p.recs
    ensures OrderOk(Returned(p, l, discard)) && l in Returned(p, l, discard).leases
    ensures Returned(p, l, discard).leases[l].released
  {
    UnleaseKeeps(p, l, discard);
    hide OrderOk;
  }

  lemma NextOfRelease<E, L>(p: Pool<E, L>, l: L, discard: bool, maxIdle: nat)
    requires Inv(p, maxIdle) && l in p.leases && !p.leases[l].released
    ensures p.leases[l].entry in p.recs
    ensures Next(p, ReleaseStep(l, discard), maxIdle) == EvictIdle(Returned(p, l, discard), maxIdle)
  {
    hide EvictIdle, Unlease, MarkReleased;
  }

  /** A lease whose channel is no longer cached retires it all the same. */
  lemma {:induction false} StaleReleaseRetires<E, L>(p: Pool<E, L>, l: L, maxIdle: nat)
    requires Inv(p, maxIdle) && l in p.leases && !p.leases[l].released
    requires Uncached(p, p.leases[l].entry)
    ensures TakenOut(p, Next(p, ReleaseStep(l, false), maxIdle), p.leases[l].entry,
                      |Holders(p.leases, p.leases[l].entry) - {l}|)
  {
    var key, e := p.leases[l].key, p.leases[l].entry;
    var r := Returned(p, l, false);
    OneHolderLess(p, l);
    assert EntryOk(p, e) && (key, e) !in p.order;
    GetIsMembership(p.order, key, e);
    UnleaseKeeps(p, l, false);
    EvictionSpares(r, maxIdle, e);
    hide Consistent, EvictIdle, Holders, OrderOk;
  }

  lemma {:induction false} UnleaseTouches<E, L>(p: Pool<E, L>, l: L)
    requires Consistent(p) && l in p.leases && !p.leases[l].released
    requires (p.leases[l].key, p.leases[l].entry) in p.order
    ensures p.leases[l].entry in p.recs
    ensures var key, e, r := p.leases[l].key, p.leases[l].entry, Returned(p, l, false);
      && r.order == Delete(p.order, key) + [(key, e)]
      && r.recs == p.recs[e := p.recs[e].(activeLeases := |Holders(p.leases, e) - {l}|)]
      && !p.recs[e].discardWhenIdle && !p.recs[e].closed && p.recs[e].closeCalls == 0
      && r.leases == MarkReleased(p, l).leases
  {
    var key, e := p.leases[l].key, p.leases[l].entry;
    OneHolderLess(p, l);
    GetIsMembership(p.order, key, e);
    assert EntryOk(p, e);
    hide DistinctKeys, SortedBy;
  }

  /**
   A lease returned in good order leaves its channel cached, open and the latest of the map.
   Only a pool that keeps no idle channel at all closes it, with its last lease.
   */
  lemma {:induction false} PlainReleaseKeeps<E, L>(p: Pool<E, L>, l: L, maxIdle: nat)
    requires Inv(p, maxIdle) && l in p.leases && !p.leases[l].released
    requires (p.leases[l].key, p.leases[l].entry) in p.order
    ensures var q := Next(p, ReleaseStep(l, false), maxIdle);
      var key, e := p.leases[l].key, p.leases[l].entry;
      var holders := |Holders(p.leases, e) - {l}|;
      && l in q.leases && q.leases[l].released && e in q.recs
      && q.recs[e].activeLeases == holders && !q.recs[e].discardWhenIdle
      && if holders == 0 && maxIdle == 0 then Uncached(q, e) && q.recs[e].closed && q.recs[e].closeCalls == 1
         else Latest(q.order, (key, e)) && !q.recs[e].closed && q.recs[e].closeCalls == 0
  {
    var key, e, r := p.leases[l].key, p.leases[l].entry, Returned(p, l, false);
    var rest := Delete(p.order, key);
    UnleaseTouches(p, l);
    ReturnedInOrder(p, l, false);
    NextOfRelease(p, l, false, maxIdle);
    OnePairEach(p, key, e);
    assert DistinctKeys(r.order) && (e in Idle(r) <==> |Holders(p.leases, e) - {l}| == 0);
    hide Consistent, Unlease, EvictIdle, Holders, OrderOk, Sweep, Swept, CountIn, Delete, Idle, Returned, Next, Inv;
    DeleteMembers(p.order, key);
    CountOfAppend(rest, (key, e), Idle(r));
    SweepOfAppend(rest, (key, e), Idle(r), Excess(r, maxIdle));
    EvictIsSweep(r, maxIdle);
    SweepPartitions(r.order, Idle(r), Excess(r, maxIdle), (key, e));
    SweepMembers(rest, Idle(r), Excess(r, maxIdle));
  }

  /** A release takes another channel out of the map only when that leaves as many idle ones as the pool may keep. */
  lemma {:induction false} EvictsOnlyAboveTheBound<E, L>(
      p: Pool<E, L>, l: L, discard: bool, maxIdle: nat, v: (string, E))
    requires Inv(p, maxIdle) && l in p.leases && !p.leases[l].released
    requires v in p.order && v.1 != p.leases[l].entry
    ensures var q := Next(p, ReleaseStep(l, discard), maxIdle);
      v !in q.order ==> CountIn(q.order, set e | e in q.recs && q.recs[e].activeLeases == 0) == maxIdle
  {
    ReturnedInOrder(p, l, discard);
    NextOfRelease(p, l, discard, maxIdle);
    OthersStayMapped(p, l, discard, v);
    EvictionStopsAtTheBound(Returned(p, l, discard), maxIdle, v);
    hide EvictIdle, Returned, Next, Inv, OrderOk, CountIn, Holders;
  }

  lemma {:induction false} EvictionStopsAtTheBound<E, L>(r: Pool<E, L>, maxIdle: nat, v: (string, E))
    requires OrderOk(r) && v in r.order
    ensures var q := EvictIdle(r, maxIdle);
      v !in q.order ==> CountIn(q.order, Idle(q)) == maxIdle
  {
    EvictIsSweep(r, maxIdle);
    SweepCounts(r.order, Idle(r), Excess(r, maxIdle));
    SweepPartitions(r.order, Idle(r), Excess(r, maxIdle), v);
    var q := EvictIdle(r, maxIdle);
    assert Idle(q) == Idle(r);
    hide EvictIdle, OrderOk, CountIn, Idle, ClosesExactly;
  }

  lemma {:induction false} OthersStayMapped<E, L>(p: Pool<E, L>, l: L, discard: bool, v: (string, E))
    requires Consistent(p) && l in p.leases && !p.leases[l].released
    requires v in p.order && v.1 != p.leases[l].entry
    ensures p.leases[l].entry in p.recs && v in Returned(p, l, discard).order
  {
    var key, e := p.leases[l].key, p.leases[l].entry;
    OneHolderLess(p, l);
    GetIsMembership(p.order, key, e);
    DeleteMembers(p.order, key);
    if v.0 == key && (key, e) in p.order {
      KeyDecides(p.order, v, (key, e));
    }
    DeleteMembers(Delete(p.order, key), key);
    DeleteMembers(MoveToEnd(p.order, key, e), key);
    hide DistinctKeys, SortedBy, EntryOk, Delete, Get;
  }

  /** A channel is in the map under its own key only. */
  lemma {:induction false} OnePairEach<E, L>(p: Pool<E, L>, key: string, e: E)
    requires OrderOk(p) && e in p.recs && p.recs[e].key == key
    ensures forall q <- Delete(p.order, key) :: q.1 != e
  {
    DeleteMembers(p.order, key);
  }

  /** A lease's own discard, and a key's: the channel leaves the map, and is closed with its last lease. */
  lemma {:induction false} EntryDiscardRetires<E, L>(p: Pool<E, L>, e: E, maxIdle: nat)
    requires Inv(p, maxIdle) && e in p.recs && !p.recs[e].closed
    ensures var q := DiscardEntry(p, p.recs[e].key, e);
      && TakenOut(p, q, e, |Holders(p.leases, e)|)
      && q.leases == p.leases && SamePairsBut(p.order, q.order, (p.recs[e].key, e))
      && (forall x <- p.recs :: x != e ==> x in q.recs && q.recs[x] == p.recs[x])
  {
    assert EntryOk(p, e);
    UnmapUncaches(p, p.recs[e].key, e);
    hide Unmap, Consistent, Holders;
  }

  lemma {:induction false} LeaseDiscardRetires<E, L>(p: Pool<E, L>, l: L, maxIdle: nat)
    requires Inv(p, maxIdle) && l in p.leases && !p.leases[l].released
    ensures TakenOut(p, Next(p, LeaseDiscardStep(l), maxIdle), p.leases[l].entry,
                      |Holders(p.leases, p.leases[l].entry)|)
  {
    OneHolderLess(p, l);
    EntryDiscardRetires(p, p.leases[l].entry, maxIdle);
  }

  /** A key that is not cached is discarded to no effect. */
  lemma {:induction false} KeyDiscardRetires<E, L>(p: Pool<E, L>, key: string, maxIdle: nat)
    requires Inv(p, maxIdle)
    ensures key !in KeysOf(p.order) ==> Next(p, KeyDiscardStep(key), maxIdle) == p
    ensures forall q <- p.order :: q.0 == key ==>
      TakenOut(p, Next(p, KeyDiscardStep(key), maxIdle), q.1, |Holders(p.leases, q.1)|)
  {
    GetFinds(p.order, key);
    forall q <- p.order ensures q.0 == key ==>
      TakenOut(p, Next(p, KeyDiscardStep(key), maxIdle), q.1, |Holders(p.leases, q.1)|)
    {
      if q.0 == key {
        GetIsMembership(p.order, key, q.1);
        assert EntryOk(p, q.1) && Cached(p, q.1);
        EntryDiscardRetires(p, q.1, maxIdle);
      }
    }
    hide TakenOut, DiscardEntry, Holders;
  }
}
