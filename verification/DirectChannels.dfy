/**
 `DirectChannelPool` over heap entries that leases share with the cache
 (direct-data-plane.ts). Every method is proved to take the step of ChannelPool it
 is named after, so all that is proved there of steps and runs holds of the class.
 Channel readiness is the caller's: a failed `ready` is a `Release` with `discard`.
 */
module DirectChannels {
  import opened Wrappers
  import opened OrderedMap
  import P = ChannelPool

  /** `PoolEntry`; `closeCalls` counts the calls of its channel's `close`. */
  class PoolEntry {
    const key: string
    var activeLeases: nat
    var closed: bool
    var discardWhenIdle: bool
    ghost var closeCalls: nat

    constructor (key: string)
      ensures this.key == key && Rec() == P.EntryRec(key, 0, false, false, 0)
    {
      this.key := key;
      activeLeases, closed, discardWhenIdle, closeCalls := 0, false, false, 0;
    }

    /** `close(entry)`: at most one `channel.close()`. */
    method Close()
      modifies `closed, `closeCalls
      ensures Rec() == P.Shut(old(Rec()))
    {
      if !closed {
        closed := true;
        closeCalls := closeCalls + 1;
      }
    }

    ghost function Rec(): P.EntryRec
      reads this
    {
      P.EntryRec(key, activeLeases, closed, discardWhenIdle, closeCalls)
    }
  }

  /** What `acquire` hands out: the entry it holds and whether it was given back. */
  class Lease {
    const key: string
    const entry: PoolEntry
    var released: bool

    constructor (key: string, entry: PoolEntry)
      ensures this.key == key && this.entry == entry && !released
    {
      this.key, this.entry, released := key, entry, false;
    }
  }

  class DirectChannelPool {
    const maxIdleChannels: nat
    var entries: seq<(string, PoolEntry)>
    ghost var created: set<PoolEntry>
    ghost var leases: set<Lease>
    ghost var touched: map<PoolEntry, nat>
    ghost var clock: nat

    ghost function State(): P.Pool<PoolEntry, Lease>
      reads this, created, leases
    {
      P.Pool(entries,
           map e | e in created :: e.Rec(),
           map l | l in leases :: P.LeaseRec(l.key, l.entry, l.released),
           touched, clock)
    }

    ghost predicate Valid()
      reads this, created, leases
    {
      P.Inv(State(), maxIdleChannels)
    }

    constructor (maxIdleChannels: nat := 64)
      ensures Valid() && this.maxIdleChannels == maxIdleChannels
      ensures State() == P.Pool([], map[], map[], map[], 0)
      ensures created == {} && leases == {}
    {
      this.maxIdleChannels := maxIdleChannels;
      entries, created, leases, touched, clock := [], {}, {}, map[], 0;
    }

    /** When one entry changed, or was created, so did one record. */
    twostate lemma RecsAfter(new e: PoolEntry)
      requires created == old(created) + {e}
      requires forall x <- old(created) :: x == e || unchanged(x)
      ensures State().recs == old(State().recs)[e := e.Rec()]
    {
    }

    twostate lemma RecsSame()
      requires created == old(created) && unchanged(old(created))
      ensures State().recs == old(State().recs)
    {
    }

    twostate lemma LeasesSame()
      requires leases == old(leases) && unchanged(old(leases))
      ensures State().leases == old(State().leases)
    {
    }

    twostate lemma LeasesAfter(new l: Lease)
      requires leases == old(leases) + {l}
      requires forall x <- old(leases) :: x == l || unchanged(x)
      ensures State().leases == old(State().leases)[l := P.LeaseRec(l.key, l.entry, l.released)]
    {
    }

    method Touch(key: string, e: PoolEntry)
      modifies this`entries, this`touched, this`clock
      ensures State() == P.Touch(old(State()), key, e)
    {
      entries := Delete(entries, key) + [(key, e)];
      touched, clock := touched[e := clock], clock + 1;
    }

    method Remove(key: string)
      modifies this`entries
      ensures State() == old(State()).(order := Delete(old(entries), key))
    {
      entries := Delete(entries, key);
      RecsSame();
      LeasesSame();
    }

    method DiscardEntry(key: string, e: PoolEntry)
      requires e in created
      modifies this`entries, e
      ensures State() == P.DiscardEntry(old(State()), key, e)
    {
      e.discardWhenIdle := true;
      var cached := Get(entries, key);
      if cached == Some(e) {
        entries := Delete(entries, key);
      }
      if e.activeLeases == 0 {
        e.Close();
      }
      RecsAfter(e);
      LeasesSame();
    }

    method AddLease(key: string, e: PoolEntry) returns (l: Lease)
      requires e in created
      modifies this`leases, this`entries, this`touched, this`clock, e`activeLeases
      ensures fresh(l) && l.entry == e && leases == old(leases) + {l}
      ensures State() == P.AddLease(old(State()), key, e, l)
    {
      e.activeLeases := e.activeLeases + 1;
      Touch(key, e);
      l := new Lease(key, e);
      leases := leases + {l};
      RecsAfter(e);
      LeasesAfter(l);
    }

    method AddEntry(key: string) returns (e: PoolEntry)
      modifies this`entries, this`created
      ensures fresh(e) && created == old(created) + {e} && e.activeLeases == 0
      ensures State() == P.AddEntry(old(State()), key, e)
    {
      e := new PoolEntry(key);
      entries := entries + [(key, e)];
      created := created + {e};
      RecsAfter(e);
      LeasesSame();
    }

    /** The synchronous part of `acquire`; `None` when the channel factory throws. */
    method Acquire(key: string, channelFails: bool) returns (lease: Option<Lease>)
      requires Valid()
      modifies this, created
      ensures Valid()
      ensures lease.None? <==> channelFails && Get(old(entries), key).None?
      ensures lease.None? ==> State() == old(State())
      ensures lease.Some? ==>
        && fresh(lease.value)
        && (Get(old(entries), key).None? ==> fresh(lease.value.entry))
        && (Get(old(entries), key).Some? ==> Get(old(entries), key).value in old(State()).recs)
        && State() == P.Acquire(old(State()), key, lease.value.entry, lease.value)
    {
      ghost var was := State();
      var cached := Get(entries, key);
      GetFinds(entries, key);
      assert cached.Some? ==> (key, cached.value) in was.order && cached.value in was.recs;
      if cached.None? && channelFails {
        return None;
      }
      hide P.Inv, P.AddLease, P.AddEntry, Get;
      var l, e;
      if cached.Some? {
        e := cached.value;
        l := AddLease(key, e);
      } else {
        e := AddEntry(key);
        l := AddLease(key, e);
      }
      P.AcquireKeeps(was, key, e, l, maxIdleChannels);
      lease := Some(l);
    }

    /** `discard(cacheKey)`. */
    method Discard(key: string)
      requires Valid()
      modifies this`entries, created
      ensures Valid()
      ensures State() == P.DiscardKey(old(State()), key)
    {
      ghost var was := State();
      var entry := Get(entries, key);
      if entry.Some? {
        GetFinds(entries, key);
        assert (key, entry.value) in was.order;
        DiscardEntry(key, entry.value);
        P.DiscardEntryKeeps(was, key, entry.value, maxIdleChannels);
      }
    }

    /** A lease's `discard`. */
    method DiscardLease(l: Lease)
      requires Valid() && l in leases
      modifies this`entries, created
      ensures Valid()
      ensures l.entry in old(State()).recs
      ensures State() == P.DiscardEntry(old(State()), l.key, l.entry)
    {
      ghost var was := State();
      assert l in was.leases && was.leases[l].entry == l.entry;
      DiscardEntry(l.key, l.entry);
      P.DiscardEntryKeeps(was, l.key, l.entry, maxIdleChannels);
    }

    method CountIdle() returns (n: nat)
      requires Knows(entries)
      ensures n == P.IdleCount(State())
    {
      ghost var idle := P.Idle(State());
      n := 0;
      var i := |entries|;
      while i > 0
        invariant 0 <= i <= |entries|
        invariant n == CountIn(entries[i..], idle)
      {
        i := i - 1;
        assert entries[i] in entries && entries[i..][1..] == entries[i + 1..];
        if entries[i].1.activeLeases == 0 {
          n := n + 1;
        }
      }
      assert entries[0..] == entries;
    }

    /** Walks the map in order, dropping idle entries until few enough are left. */
    method EvictIdle()
      requires Knows(entries)
      modifies this`entries, created`closed, created`closeCalls
      ensures State() == P.EvictIdle(old(State()), maxIdleChannels)
    {
      var idleCount := CountIdle();
      if idleCount <= maxIdleChannels {
        return;
      }
      hide P.IdleCount, CountIn, P.EvictFrom;
      EvictLoop(entries, idleCount);
    }

    ghost predicate Knows(order: seq<(string, PoolEntry)>)
      reads this`created
    {
      forall q <- order :: q.1 in created
    }

    /** The loop over the entries there were when it began. */
    method EvictLoop(snapshot: seq<(string, PoolEntry)>, count: nat)
      requires Knows(snapshot)
      modifies this`entries, created`closed, created`closeCalls
      ensures State() == P.EvictFrom(old(State()), snapshot, count, maxIdleChannels)
    {
      var i: nat, idleCount: nat := 0, count;
      assert snapshot[0..] == snapshot;
      hide P.EvictFrom, State, Knows;
      while i < |snapshot| && idleCount > maxIdleChannels
        invariant 0 <= i <= |snapshot|
        invariant Knows(snapshot)
        invariant P.EvictFrom(State(), snapshot[i..], idleCount, maxIdleChannels)
               == P.EvictFrom(old(State()), snapshot, count, maxIdleChannels)
      {
        idleCount := Visit(snapshot, i, idleCount);
        i := i + 1;
      }
      LoopEnds(snapshot, i, idleCount);
    }

    lemma LoopEnds(snapshot: seq<(string, PoolEntry)>, i: nat, idleCount: nat)
      requires i <= |snapshot| && (i == |snapshot| || idleCount <= maxIdleChannels)
      ensures P.EvictFrom(State(), snapshot[i..], idleCount, maxIdleChannels) == State()
    {
    }

    method Visit(snapshot: seq<(string, PoolEntry)>, i: nat, idleCount: nat) returns (n: nat)
      requires Knows(snapshot) && i < |snapshot| && idleCount > maxIdleChannels
      modifies this`entries, created`closed, created`closeCalls
      ensures P.EvictFrom(State(), snapshot[i + 1..], n, maxIdleChannels)
           == P.EvictFrom(old(State()), snapshot[i..], idleCount, maxIdleChannels)
    {
      var q, rest := snapshot[i], snapshot[i + 1..];
      assert snapshot[i..] == [q] + rest && ([q] + rest)[1..] == rest;
      P.EvictFromStep(State(), [q] + rest, idleCount, maxIdleChannels);
      hide P.EvictFrom, P.Drop;
      n := idleCount;
      if q.1.activeLeases == 0 {
        EvictEntry(q);
        n := idleCount - 1;
      }
    }

    method EvictEntry(q: (string, PoolEntry))
      requires q.1 in created
      modifies this`entries, q.1`closed, q.1`closeCalls
      ensures State() == P.Drop(old(State()), q)
    {
      entries := Delete(entries, q.0);
      q.1.Close();
      RecsAfter(q.1);
      LeasesSame();
    }

    /** A lease's `release`, and the end of an acquire whose channel did not become ready. */
    method Release(l: Lease, discard: bool)
      requires Valid() && l in leases
      modifies this`entries, this`touched, this`clock, l`released, created
      ensures Valid()
      ensures l in old(State()).leases && l.entry in old(State()).recs
      ensures State() == P.Release(old(State()), l, discard, maxIdleChannels)
    {
      ghost var was := State();
      assert l in was.leases && was.leases[l].entry == l.entry && l.entry in was.recs;
      P.ReleaseKeeps(was, l, discard, maxIdleChannels);
      if l.released {
        return;
      }
      P.UnleaseKeeps(was, l, discard);
      hide P.Inv, P.Unlease, P.EvictIdle, P.EntryOk, P.LeasesOk, P.TouchOrder;
      MarkReleased(l);
      ReleaseEntry(l.key, l.entry, discard);
      EvictIdle();
    }

    method MarkReleased(l: Lease)
      requires l in leases
      modifies l`released
      ensures l.released
      ensures State() == P.MarkReleased(old(State()), l)
    {
      l.released := true;
      RecsSame();
      LeasesAfter(l);
    }

    method ReleaseEntry(key: string, e: PoolEntry, discard: bool)
      requires e in created
      modifies this`entries, this`touched, this`clock, e
      ensures State() == P.Unlease(old(State()), key, e, discard)
    {
      CountDown(e, discard);
      P.UnleaseInOrder(old(State()), key, e, discard, State());
      hide P.Unlease, P.CloseEntry, Get, Delete;
      var cached := Get(entries, key);
      if discard && cached == Some(e) {
        Remove(key);
      } else if cached == Some(e) {
        Touch(key, e);
      }
      if e.activeLeases == 0 && e.discardWhenIdle {
        CloseEntry(key, e);
      }
    }

    method CountDown(e: PoolEntry, discard: bool)
      requires e in created
      modifies e`activeLeases, e`discardWhenIdle
      ensures State() == old(State()).(recs := old(State()).recs[e := old(e.Rec()).(
        activeLeases := if old(e.activeLeases) == 0 then 0 else old(e.activeLeases) - 1,
        discardWhenIdle := old(e.discardWhenIdle) || discard)])
    {
      e.activeLeases := if e.activeLeases == 0 then 0 else e.activeLeases - 1;
      e.discardWhenIdle := e.discardWhenIdle || discard;
      RecsAfter(e);
      LeasesSame();
    }

    method CloseEntry(key: string, e: PoolEntry)
      requires e in created
      modifies this`entries, e`closed, e`closeCalls
      ensures State() == P.CloseEntry(old(State()), key, e)
    {
      var cached := Get(entries, key);
      if cached == Some(e) {
        entries := Delete(entries, key);
      }
      e.Close();
      RecsAfter(e);
      LeasesSame();
    }
  }
}
