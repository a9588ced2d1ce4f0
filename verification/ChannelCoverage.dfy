/**
 Which channels discarding a sandbox retires (`discardSandbox` of direct-data-plane.ts),
 over the credential cache and the channel pool together.
 */
module ChannelCoverage {
  import opened Wrappers
  import opened OrderedMap
  import opened CredentialCache
  import P = ChannelPool

  /** The state holds a bundle with this cache key. */
  ghost predicate KeyIn<S, I>(p: Plane<S, I>, s: S, key: string) {
    s in p.recs && key in CacheKeys(p.recs[s].credentials)
  }

  /** What a caller could look up before the discard. */
  ghost predicate HeldUnder<S, I>(p: Plane<S, I>, id: string, key: string) {
    Get(p.order, id).Some? && KeyIn(p, Get(p.order, id).value, key)
  }

  ghost function AfterDiscard<S, I, E, L>(y: System<S, I, E, L>, id: string, maxIdle: nat): System<S, I, E, L>
    requires SystemInv(y, maxIdle)
  {
    SystemNext(y, CacheStep(DiscardSandboxStep(id)), maxIdle)
  }

  /** A cached channel is retired exactly when the state that the map holds for the sandbox has its bundle. */
  lemma {:induction false} DiscardRetiresIff<S, I, E, L>(
      y: System<S, I, E, L>, id: string, key: string, maxIdle: nat)
    requires SystemInv(y, maxIdle) && key in KeysOf(y.pool.order)
    ensures key !in KeysOf(AfterDiscard(y, id, maxIdle).pool.order) <==> HeldUnder(y.plane, id, key)
  {
    var keys := NewlyRetired(y.plane, DiscardSandbox(y.plane, id));
    RetiredByDiscard(y.plane, id, key);
    P.DiscardKeysRetires(y.pool, keys, maxIdle);
    var q :| q in y.pool.order && q.0 == key;
    if key !in keys {
      P.DiscardKeysKeepsOthers(y.pool, keys, q);
    }
    hide DiscardSandbox, P.DiscardKeys, P.Inv, Inv, NewlyRetired;
  }

  lemma {:induction false} RetiredByDiscard<S, I>(p: Plane<S, I>, id: string, key: string)
    ensures key in NewlyRetired(p, DiscardSandbox(p, id)) <==> HeldUnder(p, id, key)
  {
    hide Delete;
  }

  // ----- Every channel has a sandbox that retires it ----------------------------------------

  /** Some state in the map holds this key. */
  ghost predicate Held<S, I>(p: Plane<S, I>, key: string) {
    exists q <- p.order :: KeyIn(p, q.1, key)
  }

  ghost predicate Covered<S, I, E, L>(y: System<S, I, E, L>) {
    forall q <- y.pool.order :: Held(y.plane, q.0)
  }

  lemma {:induction false} HeldIsUnderSome<S, I>(p: Plane<S, I>, key: string)
    requires OrderOk(p)
    ensures Held(p, key) <==> exists id :: HeldUnder(p, id, key)
  {
    if Held(p, key) {
      var q :| q in p.order && KeyIn(p, q.1, key);
      GetIsMembership(p.order, q.0, q.1);
      assert HeldUnder(p, q.0, key);
    }
    if id :| HeldUnder(p, id, key) {
      GetFinds(p.order, id);
    }
  }

  /** What it means: for each cached channel there is a sandbox whose discard retires it. */
  lemma {:induction false} CoveredIff<S, I, E, L>(y: System<S, I, E, L>, maxIdle: nat)
    requires SystemInv(y, maxIdle)
    ensures Covered(y) <==>
      forall key <- KeysOf(y.pool.order) :: exists id :: key !in KeysOf(AfterDiscard(y, id, maxIdle).pool.order)
  {
    hide AfterDiscard, HeldUnder, Held;
    forall key <- KeysOf(y.pool.order)
      ensures Held(y.plane, key) <==> exists id :: key !in KeysOf(AfterDiscard(y, id, maxIdle).pool.order)
    {
      HeldIsUnderSome(y.plane, key);
      forall id ensures key !in KeysOf(AfterDiscard(y, id, maxIdle).pool.order) <==> HeldUnder(y.plane, id, key) {
        DiscardRetiresIff(y, id, key, maxIdle);
      }
    }
    assert forall q <- y.pool.order :: q.0 in KeysOf(y.pool.order);
  }

  /** What was held still is, or has been retired. */
  ghost predicate HeldOrRetired<S, I>(p: Plane<S, I>, q: Plane<S, I>, key: string) {
    && p.retired <= q.retired
    && (Held(p, key) ==> Held(q, key) || key in q.retired[|p.retired|..])
  }

  lemma {:induction false} HeldThen<S, I>(p: Plane<S, I>, q: Plane<S, I>, r: Plane<S, I>, key: string)
    requires HeldOrRetired(p, q, key) && HeldOrRetired(q, r, key)
    ensures HeldOrRetired(p, r, key)
  {
    hide Held;
    assert r.retired[|p.retired|..] == q.retired[|p.retired|..] + r.retired[|q.retired|..];
  }

  lemma {:induction false} DiscardHolds<S, I>(p: Plane<S, I>, id: string, key: string)
    requires OrderOk(p)
    ensures HeldOrRetired(p, DiscardSandbox(p, id), key)
  {
    var r := DiscardSandbox(p, id);
    RetiredByDiscard(p, id, key);
    DeleteMembers(p.order, id);
    if Held(p, key) {
      var q :| q in p.order && KeyIn(p, q.1, key);
      GetIsMembership(p.order, q.0, q.1);
      if q.0 != id {
        assert Get(p.order, id).Some? ==> q in Delete(p.order, id);
        assert q in r.order && KeyIn(r, q.1, key);
      }
    }
  }

  lemma {:induction false} TrimHolds<S, I>(p: Plane<S, I>, rest: seq<(string, S)>, key: string)
    requires OrderOk(p)
    ensures HeldOrRetired(p, TrimFrom(p, rest), key)
    decreases |rest|
  {
    if rest != [] && |p.order| > MAX_SANDBOX_STATES {
      var q := DiscardSandbox(p, rest[0].0);
      DeleteMembers(p.order, rest[0].0);
      DeleteKeepsDistinct(p.order, rest[0].0);
      DiscardHolds(p, rest[0].0, key);
      assert OrderOk(q);
      hide DiscardSandbox, HeldOrRetired, OrderOk;
      TrimHolds(q, rest[1..], key);
      TrimHolds(p, rest[1..], key);
      HeldThen(p, q, TrimFrom(q, rest[1..]), key);
    }
  }

  /** Nothing is retired, and every pair of the map stays with its bundles. */
  lemma {:induction false} SameHolds<S, I>(p: Plane<S, I>, r: Plane<S, I>, key: string)
    requires r.retired == p.retired && (forall q <- p.order :: q in r.order)
    requires forall s <- p.recs :: s in r.recs && r.recs[s].credentials == p.recs[s].credentials
    ensures HeldOrRetired(p, r, key)
  {
    if q :| q in p.order && KeyIn(p, q.1, key) {
      assert KeyIn(r, q.1, key);
    }
  }

  lemma {:induction false} PutKeys(credentials: seq<(Permission, Bundle)>, permission: Permission, bundle: Bundle,
                                   key: string)
    ensures key in CacheKeys(Put(credentials, permission, bundle)) ==>
      key in CacheKeys(credentials) || key == bundle.cacheKey
    ensures key in CacheKeys(credentials) ==>
      || key in CacheKeys(Put(credentials, permission, bundle))
      || (Get(credentials, permission).Some? && Get(credentials, permission).value.cacheKey == key)
    ensures bundle.cacheKey in CacheKeys(Put(credentials, permission, bundle))
  {
    var after := Put(credentials, permission, bundle);
    if credentials == [] {
      assert after[1..] == [];
    } else if credentials[0].0 == permission {
      assert after[1..] == credentials[1..];
    } else {
      PutKeys(credentials[1..], permission, bundle, key);
      assert after[1..] == Put(credentials[1..], permission, bundle);
    }
  }

  lemma {:induction false} StoreHolds<S, I>(p: Plane<S, I>, i: I, bundle: Bundle, key: string)
    requires i in p.issues && p.issues[i].state in p.recs
    ensures HeldOrRetired(p, StoreBundle(p, i, bundle), key)
  {
    var r := StoreBundle(p, i, bundle);
    var issue := p.issues[i];
    PutKeys(p.recs[issue.state].credentials, issue.permission, bundle, key);
    hide Put, Get, CacheKeys;
    if q :| q in p.order && KeyIn(p, q.1, key) {
      assert KeyIn(r, q.1, key) || key in r.retired[|p.retired|..];
    }
  }

  lemma {:induction false} StateForHolds<S, I>(p: Plane<S, I>, id: string, s: S, key: string)
    requires Inv(p) && Enabled(p, StateForStep(id, s))
    ensures HeldOrRetired(p, StateFor(p, id, s), key)
  {
    GetFinds(p.order, id);
    match Get(p.order, id) {
      case None =>
        var q := p.(order := p.order + [(id, s)], recs := p.recs[s := StateRec([], map[], 0)]);
        AppendKeepsDistinct(p.order, (id, s));
        SameHolds(p, q, key);
        TrimHolds(q, q.order, key);
        hide HeldOrRetired, TrimFrom, DistinctKeys, Get;
        HeldThen(p, q, StateFor(p, id, s), key);
      case Some(found) =>
        DeleteMembers(p.order, id);
        forall q <- p.order ensures q in MoveToEnd(p.order, id, found) {
          if q.0 == id {
            GetIsMembership(p.order, q.0, q.1);
          }
        }
        SameHolds(p, StateFor(p, id, s), key);
    }
  }

  lemma {:induction false} CacheStepHolds<S, I>(p: Plane<S, I>, step: Step<S, I>, key: string)
    requires Inv(p) && Enabled(p, step)
    ensures HeldOrRetired(p, Next(p, step), key)
  {
    match step {
      case StateForStep(id, s) => StateForHolds(p, id, s, key);
      case EnsureStep(s, permission, now, i) => SameHolds(p, EnsureCredential(p, s, permission, now, i), key);
      case StoreStep(i, bundle) =>
        assert InSlot(p, i);
        StoreHolds(p, i, bundle, key);
      case SettleStep(i) =>
        assert InSlot(p, i);
        var q := Unpend(p, i);
        UnpendKeeps(p, i);
        SameHolds(p, q, key);
        TrimHolds(q, q.order, key);
        hide HeldOrRetired, TrimFrom, Inv;
        HeldThen(p, q, SettleIssue(p, i), key);
      case DiscardSandboxStep(id) => DiscardHolds(p, id, key);
      case RetryAtStep(s, t) => SameHolds(p, Next(p, step), key);
    }
  }

  /** Connecting with a bundle that no state in the map holds: its state was dropped meanwhile. */
  ghost predicate Strays<S, I, E, L>(y: System<S, I, E, L>, step: SystemStep<S, I, E, L>) {
    step.PoolStep? && step.pstep.AcquireStep? && !Held(y.plane, step.pstep.key)
  }

  lemma {:induction false} PoolStepKeys<E, L>(p: P.Pool<E, L>, step: P.Step<E, L>, maxIdle: nat)
    requires P.Inv(p, maxIdle) && P.Enabled(p, step)
    ensures if step.AcquireStep? then KeysOf(P.Next(p, step, maxIdle).order) == KeysOf(p.order) + {step.key}
            else forall q <- P.Next(p, step, maxIdle).order :: q.0 in KeysOf(p.order)
  {
    match step {
      case AcquireStep(key, e, l) =>
        GetFinds(p.order, key);
        AcquireKeys(p, key, e, l);
      case ReleaseStep(l, discard) => ReleaseKeys(p, l, discard, maxIdle);
      case LeaseDiscardStep(l) => DeleteMembers(p.order, p.leases[l].key);
      case KeyDiscardStep(key) => DeleteMembers(p.order, key);
    }
  }

  lemma {:induction false} MoveKeys<E>(m: seq<(string, E)>, key: string, e: E)
    ensures KeysOf(MoveToEnd(m, key, e)) == KeysOf(m) + {key}
  {
    DeleteMembers(m, key);
    var moved := MoveToEnd(m, key, e);
    assert moved[|moved| - 1] == (key, e);
    forall q <- m ensures q.0 in KeysOf(moved) {
      assert q.0 != key ==> q in Delete(m, key);
      assert q.0 != key ==> q in moved;
    }
  }

  lemma {:induction false} AcquireKeys<E, L>(p: P.Pool<E, L>, key: string, e: E, l: L)
    requires P.OrderOk(p)
    requires Get(p.order, key).Some? ==> Get(p.order, key).value in p.recs
    ensures KeysOf(P.Acquire(p, key, e, l).order) == KeysOf(p.order) + {key}
  {
    GetFinds(p.order, key);
    match Get(p.order, key) {
      case None =>
        MoveKeys(p.order + [(key, e)], key, e);
        assert KeysOf(p.order + [(key, e)]) == KeysOf(p.order) + {key};
      case Some(found) => MoveKeys(p.order, key, found);
    }
  }

  lemma {:induction false} ReleaseKeys<E, L>(p: P.Pool<E, L>, l: L, discard: bool, maxIdle: nat)
    requires P.Inv(p, maxIdle) && l in p.leases
    ensures forall q <- P.Release(p, l, discard, maxIdle).order :: q.0 in KeysOf(p.order)
  {
    if !p.leases[l].released {
      var lease := p.leases[l];
      var r := P.Unlease(P.MarkReleased(p, l), lease.key, lease.entry, discard);
      P.UnleaseKeeps(p, l, discard);
      UnleaseKeys(P.MarkReleased(p, l), lease.key, lease.entry, discard);
      P.EvictIsSweep(r, maxIdle);
      SweepMembers(r.order, P.Idle(r), P.Excess(r, maxIdle));
      hide P.Unlease, P.EvictIdle, P.Inv, Sweep, P.Consistent;
      forall q <- P.Release(p, l, discard, maxIdle).order ensures q.0 in KeysOf(p.order) {
        assert q in r.order;
      }
    }
  }

  lemma {:induction false} UnleaseKeys<E, L>(p: P.Pool<E, L>, key: string, e: E, discard: bool)
    requires e in p.recs
    ensures forall q <- P.Unlease(p, key, e, discard).order :: q.0 in KeysOf(p.order)
  {
    var moved := if discard then P.Unmap(p, key, e)
                 else if Get(p.order, key) == Some(e) then P.Touch(p, key, e) else p;
    GetFinds(p.order, key);
    DeleteMembers(p.order, key);
    DeleteMembers(moved.order, key);
    forall q <- moved.order ensures q.0 in KeysOf(p.order) {
      if Get(p.order, key) == Some(e) {
        assert (key, e) in p.order;
      }
    }
    hide Get, Delete;
  }

  /**
   Every channel keeps a sandbox whose discard retires it, through every step but one:
   connecting with a bundle whose state the map no longer holds.
   */
  lemma {:induction false} StepKeepsCoveredIff<S, I, E, L>(
      y: System<S, I, E, L>, step: SystemStep<S, I, E, L>, maxIdle: nat)
    requires SystemInv(y, maxIdle) && SystemEnabled(y, step) && Covered(y)
    ensures Covered(SystemNext(y, step, maxIdle)) <==> !Strays(y, step)
  {
    var z := SystemNext(y, step, maxIdle);
    match step {
      case CacheStep(s) =>
        P.DiscardKeysRetires(y.pool, NewlyRetired(y.plane, z.plane), maxIdle);
        hide Next, Enabled, Inv, P.Inv, P.DiscardKeys, Held;
        forall q <- z.pool.order ensures Held(z.plane, q.0) {
          CacheStepHolds(y.plane, s, q.0);
          assert Held(y.plane, q.0);
        }
      case PoolStep(s) =>
        PoolStepKeys(y.pool, s, maxIdle);
        hide P.Next, P.Enabled, P.Inv, Inv, Held;
        if s.AcquireStep? {
          var q :| q in z.pool.order && q.0 == s.key by { assert s.key in KeysOf(z.pool.order); }
          assert Covered(z) ==> Held(z.plane, q.0);
        }
        if !Strays(y, step) {
          forall q <- z.pool.order ensures Held(z.plane, q.0) {
            assert q.0 in KeysOf(z.pool.order);
            if !(s.AcquireStep? && q.0 == s.key) {
              assert q.0 in KeysOf(y.pool.order);
              var r :| r in y.pool.order && r.0 == q.0;
            }
          }
        }
    }
  }

  /** No step of the run connects with a bundle whose state was dropped. */
  ghost predicate NeverStrays<S, I, E, L>(
      y: System<S, I, E, L>, steps: seq<SystemStep<S, I, E, L>>, maxIdle: nat)
    requires SystemInv(y, maxIdle) && Run(y, steps, maxIdle).Some?
    decreases |steps|
  {
    if steps == [] then true
    else
      SystemStepKeepsInv(y, steps[0], maxIdle);
      !Strays(y, steps[0]) && NeverStrays(SystemNext(y, steps[0], maxIdle), steps[1..], maxIdle)
  }

  /** At every point of the run, each cached channel has a sandbox whose discard retires it. */
  ghost predicate AlwaysCovered<S, I, E, L>(
      y: System<S, I, E, L>, steps: seq<SystemStep<S, I, E, L>>, maxIdle: nat)
    requires SystemInv(y, maxIdle) && Run(y, steps, maxIdle).Some?
    decreases |steps|
  {
    && Covered(y)
    && if steps == [] then true
       else
         SystemStepKeepsInv(y, steps[0], maxIdle);
         AlwaysCovered(SystemNext(y, steps[0], maxIdle), steps[1..], maxIdle)
  }

  /** Exactly: a run keeps every channel within reach of a discard if and only if it never strays. */
  lemma {:induction false} AlwaysCoveredIffNeverStrays<S, I, E, L>(
      y: System<S, I, E, L>, steps: seq<SystemStep<S, I, E, L>>, maxIdle: nat)
    requires SystemInv(y, maxIdle) && Covered(y) && Run(y, steps, maxIdle).Some?
    ensures AlwaysCovered(y, steps, maxIdle) <==> NeverStrays(y, steps, maxIdle)
    ensures NeverStrays(y, steps, maxIdle) ==> Covered(Run(y, steps, maxIdle).value)
    decreases |steps|
  {
    hide SystemInv, SystemNext, SystemEnabled, Covered, Strays;
    if steps != [] {
      SystemStepKeepsInv(y, steps[0], maxIdle);
      StepKeepsCoveredIff(y, steps[0], maxIdle);
      var z := SystemNext(y, steps[0], maxIdle);
      if Covered(z) {
        AlwaysCoveredIffNeverStrays(z, steps[1..], maxIdle);
      } else {
        assert !AlwaysCovered(z, steps[1..], maxIdle);
      }
    }
  }

  /** The same of every run that starts empty. */
  lemma {:induction false} EveryRunIsCoveredIff<S, I, E, L>(steps: seq<SystemStep<S, I, E, L>>, maxIdle: nat)
    requires RunFromEmpty(steps, maxIdle).Some?
    ensures SystemInv(Empty<S, I, E, L>(), maxIdle) && Run(Empty(), steps, maxIdle).Some?
    ensures AlwaysCovered(Empty(), steps, maxIdle) <==> NeverStrays(Empty(), steps, maxIdle)
  {
    EmptyIsSound<S, I, E, L>(maxIdle);
    AlwaysCoveredIffNeverStrays(Empty(), steps, maxIdle);
  }
}
