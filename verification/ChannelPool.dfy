/**
 The direct data plane's channel pool (direct-data-plane.ts, `DirectChannelPool`):
 an LRU cache of reference-counted channels.

 This is the pool as a value and its atomic steps: each step is the code between
 two suspension points, so a sequence of steps is an arbitrary interleaving of
 callers. DirectChannels holds the class, whose methods take exactly these steps.
 */
module ChannelPool {
  import opened Wrappers
  import opened OrderedMap

  datatype EntryRec = EntryRec(
    key: string, activeLeases: nat, closed: bool, discardWhenIdle: bool, closeCalls: nat)

  datatype LeaseRec<E> = LeaseRec(key: string, entry: E, released: bool)

  /**
   `order` is the cache's `Map`. `recs` and `leases` hold every entry and lease
   ever made, cached or not. `touched` is bookkeeping for the proofs: the time of
   each entry's last touch.
   */
  datatype Pool<E, L> = Pool(
    order: seq<(string, E)>,
    recs: map<E, EntryRec>,
    leases: map<L, LeaseRec<E>>,
    touched: map<E, nat>,
    clock: nat)

  ghost function Empty<E, L>(): Pool<E, L> { Pool([], map[], map[], map[], 0) }

  // ----- Steps ---------------------------------------------------------------

  ghost function Touch<E, L>(p: Pool<E, L>, key: string, e: E): Pool<E, L> {
    p.(order := MoveToEnd(p.order, key, e), touched := p.touched[e := p.clock], clock := p.clock + 1)
  }

  ghost function Unmap<E, L>(p: Pool<E, L>, key: string, e: E): Pool<E, L> {
    if Get(p.order, key) == Some(e) then p.(order := Delete(p.order, key)) else p
  }

  ghost function Shut(r: EntryRec): EntryRec {
    if r.closed then r else r.(closed := true, closeCalls := r.closeCalls + 1)
  }

  ghost function AddLease<E, L>(p: Pool<E, L>, key: string, e: E, l: L): Pool<E, L>
    requires e in p.recs
  {
    var r := p.recs[e];
    Touch(p.(recs := p.recs[e := r.(activeLeases := r.activeLeases + 1)],
             leases := p.leases[l := LeaseRec(key, e, false)]), key, e)
  }

  ghost function AddEntry<E, L>(p: Pool<E, L>, key: string, e: E): Pool<E, L> {
    p.(order := p.order + [(key, e)], recs := p.recs[e := EntryRec(key, 0, false, false, 0)])
  }

  /** The synchronous part of `acquire`; `e` is used only when the key is not cached. */
  ghost function Acquire<E, L>(p: Pool<E, L>, key: string, e: E, l: L): Pool<E, L>
    requires Get(p.order, key).Some? ==> Get(p.order, key).value in p.recs
  {
    match Get(p.order, key)
    case None => AddLease(AddEntry(p, key, e), key, e, l)
    case Some(found) => AddLease(p, key, found, l)
  }

  ghost function DiscardEntry<E, L>(p: Pool<E, L>, key: string, e: E): Pool<E, L>
    requires e in p.recs
  {
    var r := p.recs[e].(discardWhenIdle := true);
    Unmap(p, key, e).(recs := p.recs[e := if r.activeLeases == 0 then Shut(r) else r])
  }

  /** `pool.discard(cacheKey)`. */
  ghost function DiscardKey<E, L>(p: Pool<E, L>, key: string): Pool<E, L> {
    match Get(p.order, key)
    case None => p
    case Some(e) => if e in p.recs then DiscardEntry(p, key, e) else p
  }

  ghost function Idle<E, L>(p: Pool<E, L>): set<E> {
    set e | e in p.recs && p.recs[e].activeLeases == 0
  }

  ghost function IdleCount<E, L>(p: Pool<E, L>): nat {
    CountIn(p.order, Idle(p))
  }

  ghost function Drop<E, L>(p: Pool<E, L>, q: (string, E)): Pool<E, L>
    requires q.1 in p.recs
  {
    p.(order := Delete(p.order, q.0), recs := p.recs[q.1 := Shut(p.recs[q.1])])
  }

  /** `evictIdle`'s loop, with the pairs still to be visited. */
  ghost function EvictFrom<E, L>(p: Pool<E, L>, rest: seq<(string, E)>, idleCount: nat, maxIdle: nat): Pool<E, L>
    decreases |rest|
  {
    if rest == [] || idleCount <= maxIdle then p
    else if rest[0].1 !in p.recs || p.recs[rest[0].1].activeLeases != 0
    then EvictFrom(p, rest[1..], idleCount, maxIdle)
    else EvictFrom(Drop(p, rest[0]), rest[1..], idleCount - 1, maxIdle)
  }

  ghost function EvictIdle<E, L>(p: Pool<E, L>, maxIdle: nat): Pool<E, L> {
    EvictFrom(p, p.order, IdleCount(p), maxIdle)
  }

  /** `release` up to, but not including, its final `evictIdle`. */
  ghost function Unlease<E, L>(p: Pool<E, L>, key: string, e: E, discard: bool): Pool<E, L>
    requires e in p.recs
  {
    var was := p.recs[e];
    var r := was.(activeLeases := if was.activeLeases == 0 then 0 else was.activeLeases - 1,
                  discardWhenIdle := was.discardWhenIdle || discard);
    var moved := if discard then Unmap(p, key, e)
                 else if Get(p.order, key) == Some(e) then Touch(p, key, e) else p;
    if r.activeLeases == 0 && r.discardWhenIdle
    then Unmap(moved, key, e).(recs := p.recs[e := Shut(r)])
    else moved.(recs := p.recs[e := r])
  }

  /** A lease's `release`, and also what a failed `ready` does (with `discard`). */
  ghost function Release<E, L>(p: Pool<E, L>, l: L, discard: bool, maxIdle: nat): Pool<E, L>
    requires l in p.leases && p.leases[l].entry in p.recs
  {
    var lease := p.leases[l];
    if lease.released then p else
      EvictIdle(Unlease(MarkReleased(p, l), lease.key, lease.entry, discard), maxIdle)
  }

  datatype Step<E, L> =
    | AcquireStep(key: string, e: E, l: L)
    | ReleaseStep(l: L, discard: bool)
    | LeaseDiscardStep(l: L)
    | KeyDiscardStep(key: string)

  /** New entries and leases are new objects; only existing leases can be used. */
  ghost predicate Enabled<E, L>(p: Pool<E, L>, s: Step<E, L>) {
    match s
    case AcquireStep(key, e, l) => l !in p.leases && (Get(p.order, key).None? ==> e !in p.recs)
    case ReleaseStep(l, _) => l in p.leases
    case LeaseDiscardStep(l) => l in p.leases
    case KeyDiscardStep(_) => true
  }

  ghost function Next<E, L>(p: Pool<E, L>, s: Step<E, L>, maxIdle: nat): Pool<E, L>
    requires Inv(p, maxIdle) && Enabled(p, s)
  {
    match s
    case AcquireStep(key, e, l) => GetFinds(p.order, key); Acquire(p, key, e, l)
    case ReleaseStep(l, discard) => Release(p, l, discard, maxIdle)
    case LeaseDiscardStep(l) => DiscardEntry(p, p.leases[l].key, p.leases[l].entry)
    case KeyDiscardStep(key) => DiscardKey(p, key)
  }

  ghost function CloseEntry<E, L>(p: Pool<E, L>, key: string, e: E): Pool<E, L>
    requires e in p.recs
  {
    Unmap(p, key, e).(recs := p.recs[e := Shut(p.recs[e])])
  }

  /** `release` step by step: count down, take out or touch, close if that was the last use. */
  lemma {:induction false} UnleaseInOrder<E, L>(p: Pool<E, L>, key: string, e: E, discard: bool, counted: Pool<E, L>)
    requires e in p.recs
    requires var was := p.recs[e];
      counted == p.(recs := p.recs[e := was.(
        activeLeases := if was.activeLeases == 0 then 0 else was.activeLeases - 1,
        discardWhenIdle := was.discardWhenIdle || discard)])
    ensures var moved := if discard then Unmap(counted, key, e)
                         else if Get(p.order, key) == Some(e) then Touch(counted, key, e) else counted;
      var r := counted.recs[e];
      Unlease(p, key, e, discard)
        == if r.activeLeases == 0 && r.discardWhenIdle then CloseEntry(moved, key, e) else moved
  {
    hide Get, Delete;
    var r := counted.recs[e];
    assert p.recs[e := Shut(r)] == counted.recs[e := Shut(r)];
  }

  // ----- What every step keeps -----------------------------------------------

  ghost function Holders<E, L>(leases: map<L, LeaseRec<E>>, e: E): set<L> {
    set l | l in leases && leases[l].entry == e && !leases[l].released
  }

  ghost predicate Cached<E, L>(p: Pool<E, L>, e: E)
    requires e in p.recs
  {
    (p.recs[e].key, e) in p.order
  }

  /**
   The count is the number of unreleased leases; close ran once or never; a closed
   channel is unleased and not cached; what is neither cached nor closed is still
   leased and will be closed by its last release.
   */
  ghost predicate RecOk(r: EntryRec, holders: nat, cached: bool) {
    && r.activeLeases == holders
    && r.closeCalls == (if r.closed then 1 else 0)
    && (r.closed ==> r.activeLeases == 0 && !cached)
    && (cached ==> !r.discardWhenIdle)
    && (cached || r.closed || (r.activeLeases > 0 && r.discardWhenIdle))
  }

  ghost predicate EntryOk<E, L>(p: Pool<E, L>, e: E)
    requires e in p.recs
  {
    RecOk(p.recs[e], |Holders(p.leases, e)|, Cached(p, e))
  }

  ghost predicate OrderOk<E, L>(p: Pool<E, L>) {
    && DistinctKeys(p.order)
    && (forall q <- p.order :: q.1 in p.recs && p.recs[q.1].key == q.0)
  }

  /** Map order is touch order. */
  ghost predicate TouchOrder<E, L>(p: Pool<E, L>) {
    && Bounded(p.order, p.touched, p.clock)
    && SortedBy(p.order, p.touched)
  }

  ghost predicate SortedBy<E>(m: seq<(string, E)>, touched: map<E, nat>) {
    m == [] || (LaterThan(m[1..], touched, m[0].1) && SortedBy(m[1..], touched))
  }

  ghost predicate LaterThan<E>(m: seq<(string, E)>, touched: map<E, nat>, e: E) {
    forall q <- m :: q.1 in touched && e in touched && touched[e] < touched[q.1]
  }

  ghost predicate LeasesOk<E, L>(p: Pool<E, L>) {
    forall l <- p.leases :: p.leases[l].entry in p.recs && p.recs[p.leases[l].entry].key == p.leases[l].key
  }

  /** Everything but the idle bound. */
  ghost predicate Consistent<E, L>(p: Pool<E, L>) {
    && OrderOk(p) && LeasesOk(p) && TouchOrder(p)
    && (forall e <- p.recs :: EntryOk(p, e))
  }

  ghost predicate Inv<E, L>(p: Pool<E, L>, maxIdle: nat) {
    Consistent(p) && IdleCount(p) <= maxIdle
  }

  // ----- Counting and order --------------------------------------------------

  lemma {:induction false} CountOfSubset<E>(m: seq<(string, E)>, s: set<E>, t: set<E>)
    requires forall q <- m :: q.1 in s ==> q.1 in t
    ensures CountIn(m, s) <= CountIn(m, t)
  {
    if m != [] {
      assert forall q <- m[1..] :: q in m;
      CountOfSubset(m[1..], s, t);
    }
  }

  lemma {:induction false} CountOfDelete<E>(m: seq<(string, E)>, key: string, s: set<E>)
    ensures CountIn(Delete(m, key), s) <= CountIn(m, s)
  {
    if m != [] {
      CountOfDelete(m[1..], key, s);
      assert ([m[0]] + Delete(m[1..], key))[1..] == Delete(m[1..], key);
    }
  }

  lemma {:induction false} CountOfAppend<E>(m: seq<(string, E)>, q: (string, E), s: set<E>)
    ensures CountIn(m + [q], s) == CountIn(m, s) + (if q.1 in s then 1 else 0)
  {
    if m == [] {
      assert [q][1..] == [];
    } else {
      CountOfAppend(m[1..], q, s);
      assert (m + [q])[1..] == m[1..] + [q];
    }
  }

  lemma {:induction false} DeleteKeepsSorted<E>(m: seq<(string, E)>, key: string, touched: map<E, nat>)
    requires SortedBy(m, touched)
    ensures SortedBy(Delete(m, key), touched)
  {
    if m != [] {
      DeleteKeepsSorted(m[1..], key, touched);
      DeleteMembers(m[1..], key);
      if m[0].0 != key {
        assert ([m[0]] + Delete(m[1..], key))[1..] == Delete(m[1..], key);
      }
    }
  }

  lemma {:induction false} SweepKeepsSorted<E>(
      m: seq<(string, E)>, removable: set<E>, excess: nat, touched: map<E, nat>)
    requires SortedBy(m, touched)
    ensures SortedBy(Sweep(m, removable, excess), touched)
  {
    if m != [] && excess > 0 {
      if m[0].1 in removable {
        SweepKeepsSorted(m[1..], removable, excess - 1, touched);
      } else {
        SweepKeepsSorted(m[1..], removable, excess, touched);
        SweepMembers(m[1..], removable, excess);
        assert ([m[0]] + Sweep(m[1..], removable, excess))[1..] == Sweep(m[1..], removable, excess);
      }
    }
  }

  /** A new latest touch goes at the end. */
  lemma {:induction false} AppendKeepsSorted<E>(m: seq<(string, E)>, q: (string, E), touched: map<E, nat>, now: nat)
    requires SortedBy(m, touched)
    requires forall p <- m :: p.1 != q.1 && p.1 in touched && touched[p.1] < now
    ensures SortedBy(m + [q], touched[q.1 := now])
  {
    if m == [] {
      assert [q][1..] == [];
    } else {
      AppendKeepsSorted(m[1..], q, touched, now);
      assert (m + [q])[1..] == m[1..] + [q];
      forall p <- m[1..] ensures touched[m[0].1] < touched[p.1] && p in m {
      }
    }
  }

  /** What the recursive definition says of two positions. */
  lemma {:induction false} SortedAt<E>(m: seq<(string, E)>, touched: map<E, nat>, i: nat, j: nat)
    requires SortedBy(m, touched) && i < j < |m|
    ensures m[i].1 in touched && m[j].1 in touched && touched[m[i].1] < touched[m[j].1]
  {
    if i == 0 {
      assert m[j] in m[1..] by {
        assert m[1..][j - 1] == m[j];
      }
    } else {
      SortedAt(m[1..], touched, i - 1, j - 1);
    }
  }

  /** Moving the one entry of a key to the end, in an order that is otherwise intact. */
  lemma {:induction false} TouchKeepsOrder<E, L>(p: Pool<E, L>, key: string, e: E)
    requires OrderOk(p) && e in p.recs && p.recs[e].key == key
    requires Bounded(p.order, p.touched, p.clock)
    requires SortedBy(Delete(p.order, key), p.touched)
    ensures OrderOk(Touch(p, key, e)) && TouchOrder(Touch(p, key, e))
    ensures forall q <- p.order :: q.0 != key ==> q in Touch(p, key, e).order
    ensures forall q <- Touch(p, key, e).order :: q == (key, e) || (q in p.order && q.0 != key)
    ensures (key, e) in Touch(p, key, e).order
  {
    DeleteMembers(p.order, key);
    DeleteKeepsDistinct(p.order, key);
    AppendKeepsDistinct(Delete(p.order, key), (key, e));
    AppendKeepsSorted(Delete(p.order, key), (key, e), p.touched, p.clock);
  }

  ghost predicate Bounded<E>(m: seq<(string, E)>, touched: map<E, nat>, clock: nat) {
    forall q <- m :: q.1 in touched && touched[q.1] < clock
  }

  // ----- Every step keeps the invariant --------------------------------------

  lemma {:induction false} HoldersWithNew<E, L>(leases: map<L, LeaseRec<E>>, l: L, rec: LeaseRec<E>, e: E)
    requires l !in leases && !rec.released
    ensures |Holders(leases[l := rec], e)| == |Holders(leases, e)| + (if rec.entry == e then 1 else 0)
  {
    if rec.entry == e {
      assert Holders(leases[l := rec], e) == Holders(leases, e) + {l};
    } else {
      assert Holders(leases[l := rec], e) == Holders(leases, e);
    }
  }

  lemma {:induction false} HoldersWithout<E, L>(leases: map<L, LeaseRec<E>>, l: L, e: E)
    requires l in leases && !leases[l].released
    ensures |Holders(leases[l := leases[l].(released := true)], e)|
         == |Holders(leases, e)| - (if leases[l].entry == e then 1 else 0)
  {
    var now := leases[l := leases[l].(released := true)];
    if leases[l].entry == e {
      assert l in Holders(leases, e);
      assert Holders(now, e) == Holders(leases, e) - {l};
    } else {
      assert Holders(now, e) == Holders(leases, e);
    }
  }

  lemma {:induction false} AcquireNewKeeps<E, L>(p: Pool<E, L>, key: string, e: E, l: L, maxIdle: nat)
    requires Inv(p, maxIdle) && l !in p.leases && e !in p.recs && Get(p.order, key).None?
    ensures OrderOk(Acquire(p, key, e, l)) && TouchOrder(Acquire(p, key, e, l))
    ensures IdleCount(Acquire(p, key, e, l)) <= maxIdle
    ensures Acquire(p, key, e, l).order == p.order + [(key, e)]
  {
    GetFinds(p.order, key);
    DeleteAppended(p.order, key, e);
    AppendKeepsDistinct(p.order, (key, e));
    AppendKeepsSorted(p.order, (key, e), p.touched, p.clock);
    NewIsNotIdle(p, key, e, l);
    hide IdleCount;
  }

  lemma {:induction false} NewIsNotIdle<E, L>(p: Pool<E, L>, key: string, e: E, l: L)
    requires Consistent(p) && l !in p.leases && e !in p.recs && Get(p.order, key).None?
    requires Acquire(p, key, e, l).order == p.order + [(key, e)]
    ensures IdleCount(Acquire(p, key, e, l)) <= IdleCount(p)
  {
    var q := Acquire(p, key, e, l);
    CountOfSubset(p.order, Idle(q), Idle(p));
    CountOfAppend(p.order, (key, e), Idle(q));
  }

  lemma {:induction false} AcquireCachedKeeps<E, L>(p: Pool<E, L>, key: string, e: E, l: L, maxIdle: nat)
    requires Inv(p, maxIdle) && Get(p.order, key).Some?
    requires Get(p.order, key).value in p.recs
    ensures OrderOk(Acquire(p, key, e, l)) && TouchOrder(Acquire(p, key, e, l))
    ensures IdleCount(Acquire(p, key, e, l)) <= maxIdle
    ensures forall q <- p.order :: q in Acquire(p, key, e, l).order
    ensures forall q <- Acquire(p, key, e, l).order :: q in p.order
  {
    var q, found := Acquire(p, key, e, l), Get(p.order, key).value;
    GetFinds(p.order, key);
    DeleteKeepsSorted(p.order, key, p.touched);
    TouchKeepsOrder(p.(recs := q.recs), key, found);
    CountOfSubset(p.order, Idle(q), Idle(p));
    CountOfDelete(p.order, key, Idle(q));
    CountOfAppend(Delete(p.order, key), (key, found), Idle(q));
    forall x <- p.order ensures x in q.order {
      if x.0 == key {
        KeyDecides(p.order, x, (key, found));
      }
    }
  }

  lemma {:induction false} AcquireEntry<E, L>(p: Pool<E, L>, key: string, e: E, l: L, x: E)
    requires OrderOk(p) && LeasesOk(p) && l !in p.leases
    requires x in p.recs ==> EntryOk(p, x)
    requires if Get(p.order, key).None? then e !in p.recs else Get(p.order, key).value in p.recs
    requires x in Acquire(p, key, e, l).recs
    requires forall q <- p.order :: q in Acquire(p, key, e, l).order
    requires forall q <- Acquire(p, key, e, l).order :: q in p.order || (q == (key, e) && Get(p.order, key).None?)
    requires Get(p.order, key).None? ==> (key, e) in Acquire(p, key, e, l).order
    ensures EntryOk(Acquire(p, key, e, l), x)
  {
    var q := Acquire(p, key, e, l);
    HoldersWithNew(p.leases, l, q.leases[l], x);
    if x !in p.recs {
      assert Holders(p.leases, e) == {};
    }
  }

  lemma {:induction false} AcquireKeeps<E, L>(p: Pool<E, L>, key: string, e: E, l: L, maxIdle: nat)
    requires Inv(p, maxIdle) && l !in p.leases
    requires if Get(p.order, key).None? then e !in p.recs else Get(p.order, key).value in p.recs
    ensures Inv(Acquire(p, key, e, l), maxIdle)
  {
    hide DistinctKeys, SortedBy, Bounded, CountIn, Get, Delete, Idle;
    if Get(p.order, key).None? {
      AcquireNewKeeps(p, key, e, l, maxIdle);
    } else {
      AcquireCachedKeeps(p, key, e, l, maxIdle);
    }
    forall x <- Acquire(p, key, e, l).recs ensures EntryOk(Acquire(p, key, e, l), x) {
      AcquireEntry(p, key, e, l, x);
    }
  }

  /** `Unmap` takes out the pair asked for, if it is there, and nothing else. */
  lemma {:induction false} UnmapKeeps<E, L>(p: Pool<E, L>, key: string, e: E)
    requires OrderOk(p) && TouchOrder(p)
    ensures OrderOk(Unmap(p, key, e)) && TouchOrder(Unmap(p, key, e))
    ensures forall q <- p.order :: q in Unmap(p, key, e).order || q == (key, e)
    ensures forall q <- Unmap(p, key, e).order :: q in p.order && q != (key, e)
    ensures IdleCount(Unmap(p, key, e)) <= IdleCount(p)
  {
    GetIsMembership(p.order, key, e);
    if Get(p.order, key) == Some(e) {
      DeleteMembers(p.order, key);
      DeleteKeepsDistinct(p.order, key);
      DeleteKeepsSorted(p.order, key, p.touched);
      CountOfDelete(p.order, key, Idle(p));
      forall q <- p.order ensures q in Delete(p.order, key) || q == (key, e) {
        if q.0 == key {
          KeyDecides(p.order, q, (key, e));
        }
      }
    }
  }

  lemma {:induction false} DiscardEntryOrder<E, L>(p: Pool<E, L>, key: string, e: E)
    requires OrderOk(p) && TouchOrder(p) && e in p.recs && p.recs[e].key == key
    ensures OrderOk(DiscardEntry(p, key, e)) && TouchOrder(DiscardEntry(p, key, e))
    ensures IdleCount(DiscardEntry(p, key, e)) <= IdleCount(p)
    ensures !Cached(DiscardEntry(p, key, e), e)
    ensures forall q <- p.order :: q in DiscardEntry(p, key, e).order || q == (key, e)
    ensures forall q <- DiscardEntry(p, key, e).order :: q in p.order
  {
    UnmapKeeps(p, key, e);
    assert Idle(DiscardEntry(p, key, e)) == Idle(p);
  }

  lemma {:induction false} DiscardEntryKeeps<E, L>(p: Pool<E, L>, key: string, e: E, maxIdle: nat)
    requires Inv(p, maxIdle) && e in p.recs && p.recs[e].key == key
    ensures Inv(DiscardEntry(p, key, e), maxIdle)
  {
    hide DistinctKeys, SortedBy, Bounded, CountIn, Get, Delete, Idle;
    DiscardEntryOrder(p, key, e);
    forall x <- p.recs ensures EntryOk(DiscardEntry(p, key, e), x) {
      assert EntryOk(p, x);
    }
  }

  /** A lease that is not discarded goes back to the end of the order. */
  lemma {:induction false} TouchCached<E, L>(p: Pool<E, L>, key: string, e: E)
    requires OrderOk(p) && TouchOrder(p) && e in p.recs && (key, e) in p.order
    ensures OrderOk(Touch(p, key, e)) && TouchOrder(Touch(p, key, e))
    ensures forall x <- p.order :: x in Touch(p, key, e).order
    ensures forall x <- Touch(p, key, e).order :: x in p.order
  {
    DeleteKeepsSorted(p.order, key, p.touched);
    TouchKeepsOrder(p, key, e);
    forall x <- p.order ensures x in Touch(p, key, e).order {
      if x.0 == key {
        KeyDecides(p.order, x, (key, e));
      }
    }
  }

  lemma {:induction false} UnleaseOrder<E, L>(p: Pool<E, L>, key: string, e: E, discard: bool)
    requires OrderOk(p) && TouchOrder(p) && e in p.recs && p.recs[e].key == key
    requires Cached(p, e) ==> !p.recs[e].discardWhenIdle
    ensures OrderOk(Unlease(p, key, e, discard)) && TouchOrder(Unlease(p, key, e, discard))
    ensures forall x <- p.order :: x in Unlease(p, key, e, discard).order || (x == (key, e) && discard)
    ensures forall x <- Unlease(p, key, e, discard).order :: x in p.order && !(discard && x == (key, e))
  {
    hide DistinctKeys, SortedBy, Bounded, CountIn, Get, Delete;
    GetIsMembership(p.order, key, e);
    UnmapKeeps(p, key, e);
    if discard {
      UnmapKeeps(Unmap(p, key, e), key, e);
    } else if Cached(p, e) {
      TouchCached(p, key, e);
    }
  }

  ghost function MarkReleased<E, L>(p: Pool<E, L>, l: L): Pool<E, L>
    requires l in p.leases
  {
    p.(leases := p.leases[l := p.leases[l].(released := true)])
  }

  lemma {:induction false} UnleaseEntry<E, L>(p: Pool<E, L>, l: L, discard: bool, x: E)
    requires LeasesOk(p) && l in p.leases && !p.leases[l].released
    requires x in p.recs && EntryOk(p, x)
    requires var key, e := p.leases[l].key, p.leases[l].entry;
      var q := Unlease(MarkReleased(p, l), key, e, discard);
      && (forall y <- p.order :: y in q.order || (y == (key, e) && discard))
      && (forall y <- q.order :: y in p.order && !(discard && y == (key, e)))
    ensures EntryOk(Unlease(MarkReleased(p, l), p.leases[l].key, p.leases[l].entry, discard), x)
  {
    HoldersWithout(p.leases, l, x);
  }

  lemma {:induction false} UnleaseLeases<E, L>(p: Pool<E, L>, l: L, discard: bool)
    requires LeasesOk(p) && l in p.leases
    ensures LeasesOk(Unlease(MarkReleased(p, l), p.leases[l].key, p.leases[l].entry, discard))
    ensures Unlease(MarkReleased(p, l), p.leases[l].key, p.leases[l].entry, discard).recs.Keys == p.recs.Keys
  {
  }

  /** Giving back an unreleased lease keeps everything but, for the moment, the idle bound. */
  lemma {:induction false} UnleaseKeeps<E, L>(p: Pool<E, L>, l: L, discard: bool)
    requires Consistent(p) && l in p.leases && !p.leases[l].released
    ensures Consistent(Unlease(MarkReleased(p, l), p.leases[l].key, p.leases[l].entry, discard))
  {
    hide DistinctKeys, SortedBy, Bounded, CountIn, Get, Delete, Idle;
    UnleaseLeases(p, l, discard);
    var key, e := p.leases[l].key, p.leases[l].entry;
    assert EntryOk(p, e);
    UnleaseOrder(MarkReleased(p, l), key, e, discard);
    var q := Unlease(MarkReleased(p, l), key, e, discard);
    hide Unlease;
    forall x <- q.recs ensures EntryOk(q, x) {
      UnleaseEntry(p, l, discard, x);
    }
  }

  ghost function Excess<E, L>(p: Pool<E, L>, maxIdle: nat): nat {
    if IdleCount(p) <= maxIdle then 0 else IdleCount(p) - maxIdle
  }

  /** `r` has the entries of `p`, with the channels of `gone` closed and nothing else changed. */
  ghost predicate ClosesExactly<E, L>(p: Pool<E, L>, r: Pool<E, L>, gone: seq<(string, E)>) {
    && r.recs.Keys == p.recs.Keys
    && (forall e <- p.recs ::
          r.recs[e] == (if (p.recs[e].key, e) in gone then Shut(p.recs[e]) else p.recs[e]))
  }

  ghost predicate SameLeases<E, L>(p: Pool<E, L>, r: Pool<E, L>) {
    r.leases == p.leases && r.touched == p.touched && r.clock == p.clock
  }

  lemma {:induction false} DropCloses<E, L>(p: Pool<E, L>, q: (string, E), r: Pool<E, L>, gone: seq<(string, E)>)
    requires q.1 in p.recs && p.recs[q.1].key == q.0
    requires ClosesExactly(Drop(p, q), r, gone)
    ensures ClosesExactly(p, r, [q] + gone)
  {
  }

  /** The walk keeps what a sweep would. */
  lemma {:induction false} EvictFromOrder<E, L>(
      p: Pool<E, L>, kept: seq<(string, E)>, rest: seq<(string, E)>, idleCount: nat, maxIdle: nat)
    requires p.order == kept + rest && DistinctKeys(p.order) && idleCount >= maxIdle
    requires forall q <- rest :: q.1 in p.recs
    ensures EvictFrom(p, rest, idleCount, maxIdle).order == kept + Sweep(rest, Idle(p), idleCount - maxIdle)
    decreases |rest|
  {
    if rest != [] && idleCount > maxIdle {
      hide DistinctKeys, Delete;
      EvictFromStep(p, rest, idleCount, maxIdle);
      hide EvictFrom;
      assert forall q <- rest[1..] :: q in rest;
      if p.recs[rest[0].1].activeLeases != 0 {
        assert p.order == (kept + [rest[0]]) + rest[1..];
        EvictFromOrder(p, kept + [rest[0]], rest[1..], idleCount, maxIdle);
        assert kept + Sweep(rest, Idle(p), idleCount - maxIdle)
            == kept + [rest[0]] + Sweep(rest[1..], Idle(p), idleCount - maxIdle);
      } else {
        assert p.order == kept + [rest[0]] + rest[1..];
        DeleteMiddle(kept, rest[0], rest[1..]);
        DropIdle(p, rest[0]);
        EvictFromOrder(Drop(p, rest[0]), kept, rest[1..], idleCount - 1, maxIdle);
      }
    }
  }

  lemma {:induction false} DropIdle<E, L>(p: Pool<E, L>, q: (string, E))
    requires q.1 in p.recs
    ensures Idle(Drop(p, q)) == Idle(p)
  {
  }

  /** The walk closes exactly the channels a sweep would take out. */
  lemma {:induction false} EvictFromCloses<E, L>(
      p: Pool<E, L>, rest: seq<(string, E)>, idleCount: nat, maxIdle: nat)
    requires idleCount >= maxIdle
    requires forall q <- rest :: q.1 in p.recs && p.recs[q.1].key == q.0
    ensures ClosesExactly(p, EvictFrom(p, rest, idleCount, maxIdle), Swept(rest, Idle(p), idleCount - maxIdle))
    ensures SameLeases(p, EvictFrom(p, rest, idleCount, maxIdle))
    decreases |rest|
  {
    if rest != [] && idleCount > maxIdle {
      hide Delete, ClosesExactly;
      EvictFromStep(p, rest, idleCount, maxIdle);
      hide EvictFrom;
      assert forall q <- rest[1..] :: q in rest;
      if p.recs[rest[0].1].activeLeases != 0 {
        EvictFromCloses(p, rest[1..], idleCount, maxIdle);
      } else {
        DropIdle(p, rest[0]);
        EvictFromCloses(Drop(p, rest[0]), rest[1..], idleCount - 1, maxIdle);
        DropCloses(p, rest[0], EvictFrom(p, rest, idleCount, maxIdle),
                   Swept(rest[1..], Idle(p), idleCount - 1 - maxIdle));
      }
    }
  }

  lemma {:induction false} EvictIsSweep<E, L>(p: Pool<E, L>, maxIdle: nat)
    requires OrderOk(p)
    ensures EvictIdle(p, maxIdle).order == Sweep(p.order, Idle(p), Excess(p, maxIdle))
    ensures ClosesExactly(p, EvictIdle(p, maxIdle), Swept(p.order, Idle(p), Excess(p, maxIdle)))
    ensures SameLeases(p, EvictIdle(p, maxIdle))
  {
    hide DistinctKeys, CountIn;
    if IdleCount(p) <= maxIdle {
      EvictNothing(p, maxIdle);
    } else {
      hide Sweep, Swept, EvictFrom, IdleCount, Idle, ClosesExactly, SameLeases;
      EvictFromOrder(p, [], p.order, IdleCount(p), maxIdle);
      EvictFromCloses(p, p.order, IdleCount(p), maxIdle);
      assert [] + p.order == p.order;
      assert [] + Sweep(p.order, Idle(p), Excess(p, maxIdle)) == Sweep(p.order, Idle(p), Excess(p, maxIdle));
    }
  }

  lemma EvictNothing<E, L>(p: Pool<E, L>, maxIdle: nat)
    requires IdleCount(p) <= maxIdle
    ensures EvictIdle(p, maxIdle) == p
    ensures Sweep(p.order, Idle(p), Excess(p, maxIdle)) == p.order && Swept(p.order, Idle(p), Excess(p, maxIdle)) == []
  {
  }

  /** One turn of the walk. */
  lemma {:induction false} EvictFromStep<E, L>(p: Pool<E, L>, rest: seq<(string, E)>, idleCount: nat, maxIdle: nat)
    requires rest != [] && idleCount > maxIdle && rest[0].1 in p.recs
    ensures EvictFrom(p, rest, idleCount, maxIdle)
         == if p.recs[rest[0].1].activeLeases != 0 then EvictFrom(p, rest[1..], idleCount, maxIdle)
            else EvictFrom(Drop(p, rest[0]), rest[1..], idleCount - 1, maxIdle)
  {
  }

  lemma {:induction false} EvictOrder<E, L>(p: Pool<E, L>, maxIdle: nat)
    requires OrderOk(p) && TouchOrder(p)
    ensures OrderOk(EvictIdle(p, maxIdle)) && TouchOrder(EvictIdle(p, maxIdle))
    ensures IdleCount(EvictIdle(p, maxIdle)) <= maxIdle
  {
    EvictIsSweep(p, maxIdle);
    hide DistinctKeys, Sweep, Swept, CountIn, EvictFrom, SortedBy, EvictIdle;
    SweepMembers(p.order, Idle(p), Excess(p, maxIdle));
    SweepKeepsDistinct(p.order, Idle(p), Excess(p, maxIdle));
    SweepKeepsSorted(p.order, Idle(p), Excess(p, maxIdle), p.touched);
    SweepCounts(p.order, Idle(p), Excess(p, maxIdle));
    assert Idle(EvictIdle(p, maxIdle)) == Idle(p);
  }

  lemma {:induction false} EvictKeeps<E, L>(p: Pool<E, L>, maxIdle: nat)
    requires Consistent(p)
    ensures Inv(EvictIdle(p, maxIdle), maxIdle)
  {
    EvictOrder(p, maxIdle);
    EvictIsSweep(p, maxIdle);
    hide DistinctKeys, Sweep, Swept, CountIn, EvictFrom, SortedBy, EvictIdle, Bounded;
    forall x <- p.recs ensures EntryOk(EvictIdle(p, maxIdle), x) {
      assert EntryOk(p, x);
      SweepPartitions(p.order, Idle(p), Excess(p, maxIdle), (p.recs[x].key, x));
      SweepMembers(p.order, Idle(p), Excess(p, maxIdle));
    }
  }

  lemma {:induction false} ReleaseKeeps<E, L>(p: Pool<E, L>, l: L, discard: bool, maxIdle: nat)
    requires Inv(p, maxIdle) && l in p.leases
    ensures Inv(Release(p, l, discard, maxIdle), maxIdle)
  {
    if !p.leases[l].released {
      UnleaseKeeps(p, l, discard);
      EvictKeeps(Unlease(MarkReleased(p, l), p.leases[l].key, p.leases[l].entry, discard), maxIdle);
    }
  }

  lemma {:induction false} DiscardKeyKeeps<E, L>(p: Pool<E, L>, key: string, maxIdle: nat)
    requires Inv(p, maxIdle)
    ensures Inv(DiscardKey(p, key), maxIdle)
    ensures key !in KeysOf(DiscardKey(p, key).order)
    ensures forall q <- DiscardKey(p, key).order :: q in p.order
  {
    GetFinds(p.order, key);
    DeleteMembers(p.order, key);
    if Get(p.order, key).Some? {
      DiscardEntryKeeps(p, key, Get(p.order, key).value, maxIdle);
    }
  }

  /** Pool safety, one step: whatever a caller does next, the invariant holds after it. */
  lemma {:induction false} StepKeepsInv<E, L>(p: Pool<E, L>, s: Step<E, L>, maxIdle: nat)
    requires Inv(p, maxIdle) && Enabled(p, s)
    ensures Inv(Next(p, s, maxIdle), maxIdle)
  {
    match s
    case AcquireStep(key, e, l) =>
      GetFinds(p.order, key);
      AcquireKeeps(p, key, e, l, maxIdle);
    case ReleaseStep(l, discard) => ReleaseKeeps(p, l, discard, maxIdle);
    case LeaseDiscardStep(l) => DiscardEntryKeeps(p, p.leases[l].key, p.leases[l].entry, maxIdle);
    case KeyDiscardStep(key) => DiscardKeyKeeps(p, key, maxIdle);
  }

  /**
   Pool safety over every interleaving: any sequence of acquires, releases, failed
   connections, lease discards and key discards leaves the invariant in force. The
   run is `None` only when a step names a lease that was never handed out.
   */
  ghost function Run<E, L>(p: Pool<E, L>, steps: seq<Step<E, L>>, maxIdle: nat): (r: Option<Pool<E, L>>)
    requires Inv(p, maxIdle)
    ensures r.Some? ==> Inv(r.value, maxIdle)
    decreases |steps|
  {
    if steps == [] then Some(p)
    else if !Enabled(p, steps[0]) then None
    else
      StepKeepsInv(p, steps[0], maxIdle);
      Run(Next(p, steps[0], maxIdle), steps[1..], maxIdle)
  }

  lemma {:induction false} EmptyIsSound<E, L>(maxIdle: nat)
    ensures Inv(Empty<E, L>(), maxIdle)
  {
  }

  /** A run that starts with an empty pool. */
  ghost function RunFromEmpty<E, L>(steps: seq<Step<E, L>>, maxIdle: nat): Option<Pool<E, L>> {
    EmptyIsSound<E, L>(maxIdle);
    Run(Empty(), steps, maxIdle)
  }

  /**
   Of every channel ever made, after every interleaving that starts with an empty pool:
   how often it was closed, who holds it, and where it is.
   */
  lemma {:induction false} EveryChannelIsAccountedFor<E, L>(steps: seq<Step<E, L>>, maxIdle: nat, e: E)
    requires RunFromEmpty(steps, maxIdle).Some? && e in RunFromEmpty(steps, maxIdle).value.recs
    ensures var p := RunFromEmpty(steps, maxIdle).value;
      var r, holders := p.recs[e], Holders(p.leases, e);
      && IdleCount(p) <= maxIdle
      && r.closeCalls <= 1 && (r.closeCalls == 1 <==> r.closed)
      && (holders != {} ==> !r.closed)
      && (Cached(p, e) ==> !r.closed && !r.discardWhenIdle)
      && (!Cached(p, e) && !r.closed ==> holders != {} && r.discardWhenIdle)
  {
  }

  // ----- What the invariant buys ---------------------------------------------

  /** A channel is never closed under a caller that still holds it. */
  lemma {:induction false} LeasedChannelIsOpen<E, L>(p: Pool<E, L>, l: L, maxIdle: nat)
    requires Inv(p, maxIdle) && l in p.leases && !p.leases[l].released
    ensures !p.recs[p.leases[l].entry].closed
    ensures p.recs[p.leases[l].entry].closeCalls == 0
  {
    var e := p.leases[l].entry;
    assert EntryOk(p, e);
    assert l in Holders(p.leases, e);
  }

  /** Once every lease is back, each channel is either cached and idle or closed exactly once. */
  lemma {:induction false} NothingLeaks<E, L>(p: Pool<E, L>, maxIdle: nat, e: E)
    requires Inv(p, maxIdle) && e in p.recs
    requires forall l <- p.leases :: p.leases[l].released
    ensures p.recs[e].activeLeases == 0
    ensures Cached(p, e) <==> !p.recs[e].closed
    ensures p.recs[e].closeCalls == if Cached(p, e) then 0 else 1
  {
  }

  lemma {:induction false} MapOrderIsTouchOrder<E, L>(p: Pool<E, L>, maxIdle: nat, i: nat, j: nat)
    requires Inv(p, maxIdle) && i < |p.order| && j < |p.order|
    ensures p.order[i].1 in p.touched && p.order[j].1 in p.touched
    ensures i < j <==> p.touched[p.order[i].1] < p.touched[p.order[j].1]
  {
    assert p.order[i] in p.order && p.order[j] in p.order;
    if i < j {
      SortedAt(p.order, p.touched, i, j);
    } else if j < i {
      SortedAt(p.order, p.touched, j, i);
    }
  }

  // ----- Eviction and stale leases -------------------------------------------

  ghost function Returned<E, L>(p: Pool<E, L>, l: L, discard: bool): Pool<E, L>
    requires l in p.leases && p.leases[l].entry in p.recs
  {
    Unlease(MarkReleased(p, l), p.leases[l].key, p.leases[l].entry, discard)
  }

  /** A lease whose entry is no longer cached leaves the cache as it was. */
  lemma {:induction false} StaleReturn<E, L>(p: Pool<E, L>, l: L, discard: bool, maxIdle: nat)
    requires Inv(p, maxIdle) && l in p.leases && !Cached(p, p.leases[l].entry)
    ensures Returned(p, l, discard).order == p.order
    ensures Returned(p, l, discard).recs.Keys == p.recs.Keys
    ensures IdleCount(Returned(p, l, discard)) <= IdleCount(p)
  {
    var e := p.leases[l].entry;
    var q := Returned(p, l, discard);
    GetIsMembership(p.order, p.leases[l].key, e);
    hide DistinctKeys, SortedBy, CountIn, Delete;
    forall x <- p.order ensures x.1 != e {
    }
    CountOfSubset(p.order, Idle(q), Idle(p));
  }

  /**
   A stale lease, one whose key has since been given to another entry or to none,
   never removes, closes or otherwise changes any entry but its own.
   */
  lemma {:induction false} StaleLeaseIsHarmless<E, L>(p: Pool<E, L>, l: L, discard: bool, maxIdle: nat)
    requires Inv(p, maxIdle) && l in p.leases
    requires Get(p.order, p.leases[l].key) != Some(p.leases[l].entry)
    ensures Release(p, l, discard, maxIdle).order == p.order
    ensures DiscardEntry(p, p.leases[l].key, p.leases[l].entry).order == p.order
    ensures Release(p, l, discard, maxIdle).recs.Keys == p.recs.Keys
    ensures forall x <- p.recs :: x != p.leases[l].entry ==>
      && Release(p, l, discard, maxIdle).recs[x] == p.recs[x]
      && DiscardEntry(p, p.leases[l].key, p.leases[l].entry).recs[x] == p.recs[x]
  {
    GetIsMembership(p.order, p.leases[l].key, p.leases[l].entry);
    StaleReturn(p, l, discard, maxIdle);
  }

  /** Returning a live lease makes at most one more cached entry idle. */
  lemma {:induction false} LiveReturn<E, L>(p: Pool<E, L>, l: L, discard: bool, maxIdle: nat)
    requires Inv(p, maxIdle) && l in p.leases && !p.leases[l].released && Cached(p, p.leases[l].entry)
    ensures IdleCount(Returned(p, l, discard)) <= IdleCount(p) + 1
  {
    var key, e := p.leases[l].key, p.leases[l].entry;
    var q := Returned(p, l, discard);
    assert EntryOk(p, e);
    GetIsMembership(p.order, key, e);
    hide DistinctKeys, SortedBy, CountIn;
    var rest := Delete(p.order, key);
    DeleteMembers(p.order, key);
    GetFinds(rest, key);
    assert q.order == if discard then rest else rest + [(key, e)];
    forall x <- rest ensures x.1 in Idle(q) ==> x.1 in Idle(p) {
      assert x in p.order;
    }
    CountOfSubset(rest, Idle(q), Idle(p));
    CountOfDelete(p.order, key, Idle(p));
    CountOfAppend(rest, (key, e), Idle(q));
  }

  /** The entries a release evicts. */
  ghost function Evicted<E, L>(p: Pool<E, L>, l: L, discard: bool, maxIdle: nat): seq<(string, E)>
    requires l in p.leases && p.leases[l].entry in p.recs
  {
    var q := Returned(p, l, discard);
    if p.leases[l].released then [] else Swept(q.order, Idle(q), Excess(q, maxIdle))
  }

  lemma {:induction false} ReleaseEvictsAtMostOne<E, L>(p: Pool<E, L>, l: L, discard: bool, maxIdle: nat)
    requires Inv(p, maxIdle) && l in p.leases
    ensures |Evicted(p, l, discard, maxIdle)| <= 1
  {
    var q := Returned(p, l, discard);
    SweepCounts(q.order, Idle(q), Excess(q, maxIdle));
    if !p.leases[l].released {
      if Cached(p, p.leases[l].entry) {
        LiveReturn(p, l, discard, maxIdle);
      } else {
        StaleReturn(p, l, discard, maxIdle);
      }
    }
  }

  /**
   The evicted entry is unleased, leaves the cache and is closed, and every idle
   entry still cached was touched after it.
   */
  lemma {:induction false} ReleaseEvictsOldestIdle<E, L>(
      p: Pool<E, L>, l: L, discard: bool, maxIdle: nat, v: (string, E), w: (string, E))
    requires Inv(p, maxIdle) && l in p.leases
    requires v in Evicted(p, l, discard, maxIdle)
    requires var r := Release(p, l, discard, maxIdle); w in r.order && w.1 in Idle(r)
    ensures var r := Release(p, l, discard, maxIdle);
      && v.1 in r.recs && Holders(r.leases, v.1) == {}
      && v !in r.order && r.recs[v.1].closed
      && v.1 in r.touched && w.1 in r.touched && r.touched[v.1] < r.touched[w.1]
  {
    UnleaseKeeps(p, l, discard);
    hide Unlease, Consistent, Inv;
    EvictIsSweepLeases(Returned(p, l, discard), maxIdle);
    EvictedIsOldest(Returned(p, l, discard), maxIdle, v, w);
  }

  lemma {:induction false} EvictIsSweepLeases<E, L>(p: Pool<E, L>, maxIdle: nat)
    requires Consistent(p)
    ensures SameLeases(p, EvictIdle(p, maxIdle))
  {
    EvictIsSweep(p, maxIdle);
  }

  lemma {:induction false} EvictedIsOldest<E, L>(p: Pool<E, L>, maxIdle: nat, v: (string, E), w: (string, E))
    requires Consistent(p)
    requires v in Swept(p.order, Idle(p), Excess(p, maxIdle))
    requires w in EvictIdle(p, maxIdle).order && w.1 in Idle(EvictIdle(p, maxIdle))
    ensures v.1 in p.recs && Holders(p.leases, v.1) == {}
    ensures v !in EvictIdle(p, maxIdle).order
    ensures v.1 in EvictIdle(p, maxIdle).recs && EvictIdle(p, maxIdle).recs[v.1].closed
    ensures v.1 in p.touched && w.1 in p.touched && p.touched[v.1] < p.touched[w.1]
  {
    SweepMembers(p.order, Idle(p), Excess(p, maxIdle));
    assert EntryOk(p, v.1);
    EvictIsSweep(p, maxIdle);
    hide DistinctKeys, CountIn, Sweep, Swept, SortedBy, EvictIdle, EvictFrom;
    SweepPartitions(p.order, Idle(p), Excess(p, maxIdle), v);
    var i :| 0 <= i < |p.order| && p.order[i] == v;
    var j :| 0 <= j < |p.order| && p.order[j] == w;
    SweepTakesOldest(p.order, Idle(p), Excess(p, maxIdle), i, j);
    SortedAt(p.order, p.touched, i, j);
  }

  // ----- Several keys at once ------------------------------------------------

  ghost function DiscardKeys<E, L>(p: Pool<E, L>, keys: seq<string>): Pool<E, L>
    decreases |keys|
  {
    if keys == [] then p else DiscardKeys(DiscardKey(p, keys[0]), keys[1..])
  }

  lemma {:induction false} DiscardNoKeys<E, L>(p: Pool<E, L>)
    ensures DiscardKeys(p, []) == p
  {
  }

  /** Discarding keys keeps the pool sound and leaves none of them cached. */
  lemma {:induction false} DiscardKeysRetires<E, L>(p: Pool<E, L>, keys: seq<string>, maxIdle: nat)
    requires Inv(p, maxIdle)
    ensures Inv(DiscardKeys(p, keys), maxIdle)
    ensures forall q <- DiscardKeys(p, keys).order :: q in p.order && q.0 !in keys
    decreases |keys|
  {
    if keys != [] {
      DiscardKeyKeeps(p, keys[0], maxIdle);
      DiscardKeysRetires(DiscardKey(p, keys[0]), keys[1..], maxIdle);
      hide Inv, DiscardKey;
      forall q <- DiscardKeys(p, keys).order ensures q in p.order && q.0 !in keys {
        assert keys == [keys[0]] + keys[1..];
        assert q.0 in KeysOf(DiscardKey(p, keys[0]).order);
      }
    }
  }

  /** And every other key stays cached. */
  lemma {:induction false} DiscardKeysKeepsOthers<E, L>(p: Pool<E, L>, keys: seq<string>, q: (string, E))
    requires q in p.order && q.0 !in keys
    ensures q in DiscardKeys(p, keys).order
    decreases |keys|
  {
    if keys != [] {
      DeleteMembers(p.order, keys[0]);
      DiscardKeysKeepsOthers(DiscardKey(p, keys[0]), keys[1..], q);
    }
  }

  lemma {:induction false} DiscardKeysAppend<E, L>(p: Pool<E, L>, a: seq<string>, b: seq<string>)
    ensures DiscardKeys(p, a + b) == DiscardKeys(DiscardKeys(p, a), b)
    decreases |a|
  {
    if a == [] {
      assert a + b == b;
    } else {
      assert (a + b)[1..] == a[1..] + b;
      DiscardKeysAppend(DiscardKey(p, a[0]), a[1..], b);
    }
  }
}
