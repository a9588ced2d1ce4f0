/**
 File calls on the channel pool: any interleaving of the events of file-adapter.ts's calls,
 of connections that fail and of retired cache keys, as a run of the pool. An event that
 acquires a lease stands for the code of `acquire` before its wait; the waits of different
 callers overlap as they like.
 */
module LeaseTraffic {
  import opened Wrappers
  import opened OrderedMap
  import opened HintedRetry
  import opened FileRetry
  import opened PoolLaws
  import P = ChannelPool

  datatype LeaseId = OfCall(caller: nat, lease: nat) | OfDial(dial: nat)

  /** `key` is the cache key of the bundle, when the event acquires a lease. */
  datatype Action =
    | Happens(caller: nat, event: Event, key: string)
    | Dial(dial: nat, key: string) | HangUp(dial: nat)
    | Retire(key: string)

  type Pool = P.Pool<LeaseId, LeaseId>

  type PoolStep = P.Step<LeaseId, LeaseId>

  /** What one caller did. */
  ghost function Trace(actions: seq<Action>, caller: nat): seq<Event> {
    if actions == [] then []
    else
      var before, a := Trace(actions[..|actions| - 1], caller), actions[|actions| - 1];
      if a.Happens? && a.caller == caller then before + [a.event] else before
  }

  ghost predicate Dialed(actions: seq<Action>, dial: nat) {
    exists a <- actions :: a.Dial? && a.dial == dial
  }

  ghost predicate HungUp(actions: seq<Action>, dial: nat) {
    exists a <- actions :: a.HangUp? && a.dial == dial
  }

  /** What the pool does; the entry a lease makes is named after it. */
  function StepOf(a: Action): Option<PoolStep> {
    match a
    case Happens(c, Acquired(l), key) => Some(P.AcquireStep(key, OfCall(c, l), OfCall(c, l)))
    case Happens(c, Called(_, _), _) => None
    case Happens(c, Discarded(l), _) => Some(P.LeaseDiscardStep(OfCall(c, l)))
    case Happens(c, Released(l, discard), _) => Some(P.ReleaseStep(OfCall(c, l), discard))
    case Dial(d, key) => Some(P.AcquireStep(key, OfDial(d), OfDial(d)))
    case HangUp(d) => Some(P.ReleaseStep(OfDial(d), true))
    case Retire(key) => Some(P.KeyDiscardStep(key))
  }

  function StepsOf(actions: seq<Action>): seq<PoolStep> {
    if actions == [] then []
    else
      var before, step := StepsOf(actions[..|actions| - 1]), StepOf(actions[|actions| - 1]);
      if step.Some? then before + [step.value] else before
  }

  // ----- Traffic that callers can make ------------------------------------------------------

  /** Each caller keeps to the rules for one lease at a time, and no lease is made twice. */
  ghost predicate Legal(actions: seq<Action>) {
    actions == [] ||
      var before := actions[..|actions| - 1];
      Legal(before) && LegalNext(before, actions[|actions| - 1])
  }

  ghost predicate LegalNext(before: seq<Action>, a: Action) {
    match a
    case Happens(c, e, _) =>
      && Track(TrackAll(Free, Trace(before, c)), e) != Broken
      && (e.Acquired? ==> CountAcquired(Trace(before, c), e.lease) == 0)
    case Dial(d, _) => !Dialed(before, d)
    case HangUp(d) => Dialed(before, d)
    case Retire(_) => true
  }

  ghost predicate Made(actions: seq<Action>, id: LeaseId) {
    match id
    case OfCall(c, l) => CountAcquired(Trace(actions, c), l) > 0
    case OfDial(d) => Dialed(actions, d)
  }

  /** The lease has been made and not returned. */
  ghost predicate Live(actions: seq<Action>, id: LeaseId) {
    match id
    case OfCall(c, l) => var h := TrackAll(Free, Trace(actions, c)); h.Held? && h.lease == l
    case OfDial(d) => Dialed(actions, d) && !HungUp(actions, d)
  }

  function Makes(a: Action): Option<LeaseId> {
    match StepOf(a)
    case Some(AcquireStep(_, _, l)) => Some(l)
    case _ => None
  }

  function Returns(a: Action): Option<LeaseId> {
    match StepOf(a)
    case Some(ReleaseStep(l, _)) => Some(l)
    case _ => None
  }

  lemma {:induction false} TraceMore(actions: seq<Action>, a: Action, caller: nat)
    ensures Trace(actions + [a], caller) ==
      if a.Happens? && a.caller == caller then Trace(actions, caller) + [a.event] else Trace(actions, caller)
  {
  }

  lemma {:induction false} TrackMore(events: seq<Event>, e: Event, lease: nat)
    ensures TrackAll(Free, events + [e]) == Track(TrackAll(Free, events), e)
    ensures CountAcquired(events + [e], lease) == CountAcquired(events, lease) + if e == Acquired(lease) then 1 else 0
  {
  }

  lemma {:induction false} MadeMore(actions: seq<Action>, a: Action, id: LeaseId)
    ensures Made(actions + [a], id) <==> Made(actions, id) || Makes(a) == Some(id)
  {
    match id {
      case OfCall(c, l) =>
        TraceMore(actions, a, c);
        if a.Happens? && a.caller == c {
          TrackMore(Trace(actions, c), a.event, l);
        }
      case OfDial(d) =>
        assert forall x <- actions :: x in actions + [a];
        assert a in actions + [a];
    }
  }

  lemma {:induction false} LiveMore(actions: seq<Action>, a: Action, id: LeaseId)
    requires LegalNext(actions, a) && (forall d :: HungUp(actions, d) ==> Dialed(actions, d))
    ensures Live(actions + [a], id) <==>
      if Makes(a) == Some(id) then true else Live(actions, id) && Returns(a) != Some(id)
  {
    match id {
      case OfCall(c, l) =>
        TraceMore(actions, a, c);
        if a.Happens? && a.caller == c {
          TrackMore(Trace(actions, c), a.event, l);
        }
      case OfDial(d) =>
        assert forall x <- actions :: x in actions + [a];
        assert a in actions + [a];
    }
  }

  lemma {:induction false} HungUpWasDialed(actions: seq<Action>, d: nat)
    requires Legal(actions) && HungUp(actions, d)
    ensures Dialed(actions, d)
  {
    var before, last := actions[..|actions| - 1], actions[|actions| - 1];
    assert actions == before + [last];
    if HungUp(before, d) {
      HungUpWasDialed(before, d);
    }
    assert Dialed(before, d);
  }

  /** A lease that is held was made. */
  lemma {:induction false} LiveWasMade(actions: seq<Action>, id: LeaseId)
    requires Live(actions, id)
    ensures Made(actions, id)
  {
    if id.OfCall? {
      EveryLeaseIsReleasedOnce(Trace(actions, id.caller), id.lease);
    }
  }

  // ----- The pool's side --------------------------------------------------------------------

  /** The pool's leases are those made, and the unreleased ones are those held. */
  ghost predicate Mirrors(p: Pool, actions: seq<Action>) {
    && (forall id :: id in p.leases <==> Made(actions, id))
    && (forall id <- p.leases :: !p.leases[id].released <==> Live(actions, id))
    && (forall e <- p.recs :: e in p.leases)
  }

  /** What a step does to the leases. */
  ghost predicate LeasesAfter(p: Pool, step: PoolStep, q: Pool) {
    && (forall e <- q.recs :: e in p.recs || (step.AcquireStep? && e == step.e))
    && match step
       case AcquireStep(key, _, l) =>
         && q.leases.Keys == p.leases.Keys + {l} && !q.leases[l].released
         && (forall x <- p.leases :: x != l ==> q.leases[x] == p.leases[x])
       case ReleaseStep(l, _) =>
         && q.leases.Keys == p.leases.Keys && (l in q.leases ==> q.leases[l].released)
         && (forall x <- p.leases :: x != l ==> q.leases[x] == p.leases[x])
       case LeaseDiscardStep(_) => q.leases == p.leases
       case KeyDiscardStep(_) => q.leases == p.leases
  }

  lemma {:induction false} StepLeases(p: Pool, step: PoolStep, maxIdle: nat)
    requires P.Inv(p, maxIdle) && P.Enabled(p, step)
    ensures LeasesAfter(p, step, P.Next(p, step, maxIdle))
  {
    match step {
      case AcquireStep(key, e, l) =>
        GetFinds(p.order, key);
        AcquireLeases(p, key, e, l);
      case ReleaseStep(l, discard) => ReleaseLeases(p, l, discard, maxIdle);
      case LeaseDiscardStep(l) => DiscardLeases(p, p.leases[l].key, p.leases[l].entry);
      case KeyDiscardStep(key) =>
        if Get(p.order, key).Some? && Get(p.order, key).value in p.recs {
          DiscardLeases(p, key, Get(p.order, key).value);
        }
    }
    hide LeasesAfter, P.Inv, P.Release, P.Acquire, P.DiscardEntry, Get;
  }

  lemma AcquireLeases(p: Pool, key: string, e: LeaseId, l: LeaseId)
    requires Get(p.order, key).Some? ==> Get(p.order, key).value in p.recs
    ensures LeasesAfter(p, P.AcquireStep(key, e, l), P.Acquire(p, key, e, l))
  {
    hide Get, Delete;
  }

  lemma DiscardLeases(p: Pool, key: string, e: LeaseId)
    requires e in p.recs
    ensures P.DiscardEntry(p, key, e).leases == p.leases && P.DiscardEntry(p, key, e).recs.Keys == p.recs.Keys
  {
    hide Get, Delete;
  }

  lemma {:induction false} ReleaseLeases(p: Pool, l: LeaseId, discard: bool, maxIdle: nat)
    requires P.Inv(p, maxIdle) && l in p.leases
    ensures p.leases[l].entry in p.recs
    ensures LeasesAfter(p, P.ReleaseStep(l, discard), P.Release(p, l, discard, maxIdle))
  {
    ReturnedInOrder(p, l, discard, maxIdle);
    hide P.Inv, P.Unlease, P.EvictIdle, P.MarkReleased, P.OrderOk;
    MarkedReleased(p, l);
    if !p.leases[l].released {
      var m := P.MarkReleased(p, l);
      UnleaseSameLeases(m, p.leases[l].key, p.leases[l].entry, discard);
      EvictSameLeases(P.Unlease(m, p.leases[l].key, p.leases[l].entry, discard), maxIdle);
    }
  }

  lemma {:induction false} ReturnedInOrder(p: Pool, l: LeaseId, discard: bool, maxIdle: nat)
    requires P.Inv(p, maxIdle) && l in p.leases
    ensures p.leases[l].entry in p.recs
    ensures !p.leases[l].released ==>
      P.OrderOk(P.Unlease(P.MarkReleased(p, l), p.leases[l].key, p.leases[l].entry, discard))
  {
    if !p.leases[l].released {
      P.UnleaseKeeps(p, l, discard);
    }
    hide P.OrderOk, P.Unlease;
  }

  lemma MarkedReleased(p: Pool, l: LeaseId)
    requires l in p.leases
    ensures var m := P.MarkReleased(p, l);
      && m.leases.Keys == p.leases.Keys && m.leases[l].released && m.recs == p.recs
      && (forall x <- p.leases :: x != l ==> m.leases[x] == p.leases[x])
  {
  }

  lemma UnleaseSameLeases(p: Pool, key: string, e: LeaseId, discard: bool)
    requires e in p.recs
    ensures P.Unlease(p, key, e, discard).leases == p.leases && P.Unlease(p, key, e, discard).recs.Keys == p.recs.Keys
  {
  }

  lemma {:induction false} EvictSameLeases(p: Pool, maxIdle: nat)
    requires P.OrderOk(p)
    ensures P.EvictIdle(p, maxIdle).leases == p.leases && P.EvictIdle(p, maxIdle).recs.Keys == p.recs.Keys
  {
    P.EvictIsSweep(p, maxIdle);
    hide P.EvictIdle;
  }

  /** Whatever callers do next, the pool can follow. */
  lemma {:induction false} CanFollow(p: Pool, actions: seq<Action>, a: Action)
    requires Mirrors(p, actions) && LegalNext(actions, a) && StepOf(a).Some?
    ensures P.Enabled(p, StepOf(a).value)
  {
    match a {
      case Happens(c, e, key) =>
        var h := TrackAll(Free, Trace(actions, c));
        if h.Held? {
          LiveWasMade(actions, OfCall(c, h.lease));
        }
      case Dial(d, key) => assert !Made(actions, OfDial(d));
      case HangUp(d) => assert Made(actions, OfDial(d));
      case Retire(key) =>
    }
  }

  /** One lease before and after an action. */
  lemma {:induction false} FollowsAt(p: Pool, actions: seq<Action>, a: Action, q: Pool, id: LeaseId)
    requires LegalNext(actions, a) && (forall d :: HungUp(actions, d) ==> Dialed(actions, d))
    requires id in p.leases <==> Made(actions, id)
    requires id in p.leases ==> (!p.leases[id].released <==> Live(actions, id))
    requires if StepOf(a).Some? then LeasesAfter(p, StepOf(a).value, q) else q == p
    ensures id in q.leases <==> Made(actions + [a], id)
    ensures id in q.leases ==> (!q.leases[id].released <==> Live(actions + [a], id))
  {
    MadeMore(actions, a, id);
    LiveMore(actions, a, id);
    hide Made, Live, LegalNext, HungUp, Dialed;
  }

  lemma RecsAreLeased(p: Pool, step: PoolStep, q: Pool)
    requires LeasesAfter(p, step, q) && (step.AcquireStep? ==> step.e == step.l)
    requires forall e <- p.recs :: e in p.leases
    ensures forall e <- q.recs :: e in q.leases
  {
  }

  lemma {:induction false} Follows(p: Pool, actions: seq<Action>, a: Action, q: Pool)
    requires Legal(actions) && LegalNext(actions, a) && Mirrors(p, actions)
    requires if StepOf(a).Some? then LeasesAfter(p, StepOf(a).value, q) else q == p
    ensures Mirrors(q, actions + [a])
  {
    hide LeasesAfter, Made, Live, LegalNext, HungUp, Dialed;
    if StepOf(a).Some? {
      RecsAreLeased(p, StepOf(a).value, q);
    }
    hide StepOf;
    forall d | HungUp(actions, d) ensures Dialed(actions, d) {
      HungUpWasDialed(actions, d);
    }
    forall id
      ensures id in q.leases <==> Made(actions + [a], id)
      ensures id in q.leases ==> (!q.leases[id].released <==> Live(actions + [a], id))
    {
      FollowsAt(p, actions, a, q, id);
    }
    hide Legal;
  }

  lemma {:induction false} RunThen(p: Pool, steps: seq<PoolStep>, step: PoolStep, maxIdle: nat)
    requires P.Inv(p, maxIdle) && P.Run(p, steps, maxIdle).Some?
    requires P.Enabled(P.Run(p, steps, maxIdle).value, step)
    ensures P.Run(p, steps + [step], maxIdle) == Some(P.Next(P.Run(p, steps, maxIdle).value, step, maxIdle))
    decreases |steps|
  {
    hide P.Inv, P.Next, P.Enabled;
    if steps == [] {
      P.StepKeepsInv(p, step, maxIdle);
      assert steps + [step] == [step];
      assert P.Run(P.Next(p, step, maxIdle), [], maxIdle) == Some(P.Next(p, step, maxIdle));
    } else {
      P.StepKeepsInv(p, steps[0], maxIdle);
      assert (steps + [step])[1..] == steps[1..] + [step];
      RunThen(P.Next(p, steps[0], maxIdle), steps[1..], step, maxIdle);
    }
  }

  /** Any legal traffic is a run of the pool, and the leases out at its end are those that callers hold. */
  lemma {:induction false} TrafficRuns(actions: seq<Action>, maxIdle: nat)
    requires Legal(actions)
    ensures P.RunFromEmpty(StepsOf(actions), maxIdle).Some?
    ensures Mirrors(P.RunFromEmpty(StepsOf(actions), maxIdle).value, actions)
  {
    P.EmptyIsSound<LeaseId, LeaseId>(maxIdle);
    if actions == [] {
      NothingMade(maxIdle);
    } else {
      var before, a := actions[..|actions| - 1], actions[|actions| - 1];
      assert actions == before + [a];
      TrafficRuns(before, maxIdle);
      var p := P.RunFromEmpty(StepsOf(before), maxIdle).value;
      hide Mirrors, LegalNext, LeasesAfter, P.Inv, P.Next, P.Enabled;
      if StepOf(a).Some? {
        var step := StepOf(a).value;
        CanFollow(p, before, a);
        RunThen(P.Empty(), StepsOf(before), step, maxIdle);
        StepLeases(p, step, maxIdle);
        Follows(p, before, a, P.Next(p, step, maxIdle));
      } else {
        Follows(p, before, a, p);
      }
    }
  }

  lemma NothingMade(maxIdle: nat)
    ensures P.RunFromEmpty<LeaseId, LeaseId>([], maxIdle) == Some(P.Empty())
    ensures Mirrors(P.Empty(), [])
  {
  }

  lemma {:induction false} StepsMore(actions: seq<Action>, a: Action)
    ensures StepsOf(actions + [a]) == StepsOf(actions) + if StepOf(a).Some? then [StepOf(a).value] else []
  {
  }

  lemma {:induction false} HangUpReleases(actions: seq<Action>, d: nat, maxIdle: nat)
    requires Legal(actions) && Dialed(actions, d) && !HungUp(actions, d)
    ensures P.RunFromEmpty(StepsOf(actions), maxIdle).Some?
    ensures var p, l := P.RunFromEmpty(StepsOf(actions), maxIdle).value, OfDial(d);
      && P.Inv(p, maxIdle) && l in p.leases && !p.leases[l].released
      && P.RunFromEmpty(StepsOf(actions + [HangUp(d)]), maxIdle) == Some(P.Next(p, P.ReleaseStep(l, true), maxIdle))
  {
    TrafficRuns(actions, maxIdle);
    P.EmptyIsSound<LeaseId, LeaseId>(maxIdle);
    assert Made(actions, OfDial(d)) && Live(actions, OfDial(d));
    StepsMore(actions, HangUp(d));
    hide Legal, Made, Live, Dialed, HungUp, P.Inv, P.Next, StepsOf;
    RunThen(P.Empty(), StepsOf(actions), P.ReleaseStep(OfDial(d), true), maxIdle);
    hide Mirrors;
  }

  /** Hanging up after a connection that failed takes its channel out of the map, to close with its last lease. */
  lemma {:induction false} HangUpRetires(actions: seq<Action>, d: nat, maxIdle: nat)
    requires Legal(actions) && Dialed(actions, d) && !HungUp(actions, d)
    ensures P.RunFromEmpty(StepsOf(actions), maxIdle).Some?
    ensures P.RunFromEmpty(StepsOf(actions + [HangUp(d)]), maxIdle).Some?
    ensures var p := P.RunFromEmpty(StepsOf(actions), maxIdle).value;
      var q := P.RunFromEmpty(StepsOf(actions + [HangUp(d)]), maxIdle).value;
      && OfDial(d) in p.leases && OfDial(d) in q.leases && q.leases[OfDial(d)].released
      && var e := p.leases[OfDial(d)].entry;
         TakenOut(p, q, e, |P.Holders(p.leases, e) - {OfDial(d)}|)
  {
    HangUpReleases(actions, d, maxIdle);
    hide Legal, Dialed, HungUp, StepsOf, P.Inv, P.Next, P.RunFromEmpty, TakenOut, P.Holders;
    DiscardingReleaseRetires(P.RunFromEmpty(StepsOf(actions), maxIdle).value, OfDial(d), maxIdle);
  }

  // ----- Traffic of balanced calls ----------------------------------------------------------

  /** What each caller did alone is within the rules, and so are the dials. */
  ghost predicate EachLegal(actions: seq<Action>) {
    && (forall c :: TrackAll(Free, Trace(actions, c)) != Broken)
    && (forall c, l :: CountAcquired(Trace(actions, c), l) <= 1)
    && DialsLegal(actions)
  }

  ghost predicate DialsLegal(actions: seq<Action>) {
    actions == [] ||
      var before, a := actions[..|actions| - 1], actions[|actions| - 1];
      && DialsLegal(before)
      && (a.Dial? ==> !Dialed(before, a.dial)) && (a.HangUp? ==> Dialed(before, a.dial))
  }

  /** One caller's trace before an action was within the rules if it is after it. */
  lemma {:induction false} WasLegal(before: seq<Action>, a: Action, c: nat, lease: nat)
    requires TrackAll(Free, Trace(before + [a], c)) != Broken
    requires CountAcquired(Trace(before + [a], c), lease) <= 1
    ensures TrackAll(Free, Trace(before, c)) != Broken && CountAcquired(Trace(before, c), lease) <= 1
    ensures a.Happens? && a.caller == c ==> Track(TrackAll(Free, Trace(before, c)), a.event) != Broken
    ensures a.Happens? && a.caller == c && a.event == Acquired(lease) ==> CountAcquired(Trace(before, c), lease) == 0
  {
    TraceMore(before, a, c);
    if a.Happens? && a.caller == c {
      TrackMore(Trace(before, c), a.event, lease);
    }
    hide Trace, TrackAll, CountAcquired;
  }

  /** It takes no more than each caller's own trace to see that the whole traffic is legal. */
  lemma {:induction false} LegalTogether(actions: seq<Action>)
    requires EachLegal(actions)
    ensures Legal(actions)
  {
    if actions != [] {
      var before, a := actions[..|actions| - 1], actions[|actions| - 1];
      assert actions == before + [a];
      hide Trace, TrackAll, CountAcquired, Track, Dialed;
      forall c, l: nat
        ensures TrackAll(Free, Trace(before, c)) != Broken && CountAcquired(Trace(before, c), l) <= 1
      {
        WasLegal(before, a, c, l);
      }
      forall c: nat ensures TrackAll(Free, Trace(before, c)) != Broken {
        assert CountAcquired(Trace(before, c), 0) <= 1;
      }
      LegalTogether(before);
      if a.Happens? {
        WasLegal(before, a, a.caller, if a.event.Acquired? then a.event.lease else 0);
      }
    }
  }

  /** All calls have ended, and all dials that failed were hung up. */
  ghost predicate Quiet(actions: seq<Action>) {
    && (forall c :: Balanced(Trace(actions, c)))
    && (forall d :: Dialed(actions, d) ==> HungUp(actions, d))
  }

  lemma {:induction false} AllReturned(p: Pool, actions: seq<Action>)
    requires Quiet(actions) && Mirrors(p, actions)
    ensures forall l <- p.leases :: p.leases[l].released
  {
    forall id ensures !Live(actions, id) {
      match id {
        case OfCall(c, l) => assert Balanced(Trace(actions, c));
        case OfDial(d) =>
      }
    }
    hide Live;
  }

  lemma {:induction false} AllSettled(p: Pool, maxIdle: nat, e: LeaseId)
    requires P.Inv(p, maxIdle) && forall l <- p.leases :: p.leases[l].released
    ensures P.IdleCount(p) <= maxIdle
    ensures e in p.recs ==>
      && p.recs[e].activeLeases == 0
      && (P.Cached(p, e) <==> !p.recs[e].closed)
      && p.recs[e].closeCalls == if P.Cached(p, e) then 0 else 1
  {
    if e in p.recs {
      P.NothingLeaks(p, maxIdle, e);
    }
  }

  /**
   Once balanced calls have ended, however they were interleaved with each other, with failed
   connections and with retired keys, every channel they made is cached and open, or was closed
   exactly once.
   */
  lemma {:induction false} QuietTrafficLeaksNothing(actions: seq<Action>, maxIdle: nat, e: LeaseId)
    requires EachLegal(actions) && Quiet(actions)
    ensures P.RunFromEmpty(StepsOf(actions), maxIdle).Some?
    ensures var p := P.RunFromEmpty(StepsOf(actions), maxIdle).value;
      && P.IdleCount(p) <= maxIdle
      && (e in p.recs ==>
        && p.recs[e].activeLeases == 0
        && (P.Cached(p, e) <==> !p.recs[e].closed)
        && p.recs[e].closeCalls == if P.Cached(p, e) then 0 else 1)
  {
    LegalTogether(actions);
    TrafficRuns(actions, maxIdle);
    P.EmptyIsSound<LeaseId, LeaseId>(maxIdle);
    var p := P.RunFromEmpty(StepsOf(actions), maxIdle).value;
    assert P.Inv(p, maxIdle);
    hide EachLegal, Quiet, Legal, P.Inv, StepsOf;
    AllReturned(p, actions);
    hide Mirrors;
    AllSettled(p, maxIdle, e);
    hide P.IdleCount, P.Cached;
  }

  /** A unary file call with everything it was made under. */
  datatype Job = Job(
    hasDataPlane: bool, request: Request, call: FileCall, answer: Answer, abortAt: Option<real>,
    connects: nat -> Connect, asked: nat, leases: nat)

  ghost predicate JobOk(job: Job) {
    && CallOk(job.hasDataPlane, job.request, job.call, job.answer, job.abortAt)
    && AskedInTurn(job.connects, job.asked, job.leases, job.call.attempts)
  }

  /** The traffic is that of these jobs, one a caller, and of dials that all failed. */
  ghost predicate TrafficOf(actions: seq<Action>, jobs: seq<Job>) {
    && (forall c | 0 <= c < |jobs| :: JobOk(jobs[c]) && Trace(actions, c) == CallTrace(jobs[c].call))
    && (forall c | c >= |jobs| :: Trace(actions, c) == [])
    && DialsLegal(actions) && forall d :: Dialed(actions, d) ==> HungUp(actions, d)
  }

  lemma {:induction false} JobsAreLegal(actions: seq<Action>, jobs: seq<Job>)
    requires TrafficOf(actions, jobs)
    ensures EachLegal(actions) && Quiet(actions)
  {
    forall c: nat, l ensures Balanced(Trace(actions, c)) && CountAcquired(Trace(actions, c), l) <= 1 {
      if c < |jobs| {
        var job := jobs[c];
        assert JobOk(job);
        EveryCallIsBalanced(job.hasDataPlane, job.request, job.call, job.answer, job.abortAt);
        NoLeaseTwice(job.hasDataPlane, job.request, job.call, job.answer, job.abortAt, job.connects, job.asked,
                     job.leases, l);
      }
    }
    forall c: nat ensures Balanced(Trace(actions, c)) {
      assert CountAcquired(Trace(actions, c), 0) <= 1;
    }
    hide JobOk, CountAcquired;
  }

  /** Any number of file calls at once, with whatever answers, leave nothing behind in the pool. */
  lemma {:induction false} FileCallsLeakNothing(actions: seq<Action>, jobs: seq<Job>, maxIdle: nat, e: LeaseId)
    requires TrafficOf(actions, jobs)
    ensures P.RunFromEmpty(StepsOf(actions), maxIdle).Some?
    ensures var p := P.RunFromEmpty(StepsOf(actions), maxIdle).value;
      e in p.recs ==>
        && p.recs[e].activeLeases == 0
        && (P.Cached(p, e) <==> !p.recs[e].closed)
        && p.recs[e].closeCalls == if P.Cached(p, e) then 0 else 1
  {
    JobsAreLegal(actions, jobs);
    hide TrafficOf, EachLegal, Quiet;
    QuietTrafficLeaksNothing(actions, maxIdle, e);
  }
}
