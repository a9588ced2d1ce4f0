/**
 When the state map drops a state that is still in use (direct-data-plane.ts): at once, by
 trimming, or later, by discarding its sandbox while a credential issue is in flight. And
 what becomes of it: its caller goes on with an object the map no longer holds.
 */
module DetachedStates {
  import opened Wrappers
  import opened OrderedMap
  import opened CredentialCache
  import opened ChannelCoverage
  import P = ChannelPool

  // ----- When it happens --------------------------------------------------------------

  /** A pass keeps a removable last pair just when there are enough removable ones before it. */
  lemma {:induction false} SweepKeepsLast<V>(m: seq<(string, V)>, last: (string, V), removable: set<V>, excess: nat)
    requires last.1 in removable && last !in m
    ensures last in Sweep(m + [last], removable, excess) <==> excess <= CountIn(m, removable)
  {
    if m == [] {
      assert m + [last] == [last];
      assert excess > 0 ==> Sweep([last], removable, excess) == [];
    } else if excess > 0 {
      assert (m + [last])[1..] == m[1..] + [last];
      SweepKeepsLast(m[1..], last, removable, if m[0].1 in removable then excess - 1 else excess);
    }
  }

  lemma {:induction false} CountPositive<V>(m: seq<(string, V)>, s: set<V>, q: (string, V))
    requires q in m && q.1 in s
    ensures CountIn(m, s) > 0
  {
    if m[0] != q {
      CountPositive(m[1..], s, q);
    }
  }

  /** What a caller could check before the call. */
  ghost predicate WillKeep<S, I>(p: Plane<S, I>, id: string)
    requires OrderOk(p)
  {
    || Get(p.order, id).Some?
    || |p.order| < MAX_SANDBOX_STATES
    || exists q <- p.order :: p.recs[q.1].pending == map[]
  }

  /** The state that `stateFor` returns. */
  ghost function Returned<S, I>(p: Plane<S, I>, id: string, s: S): S {
    OrElse(Get(p.order, id), s)
  }

  ghost function Added<S, I>(p: Plane<S, I>, id: string, s: S): Plane<S, I> {
    p.(order := p.order + [(id, s)], recs := p.recs[s := StateRec([], map[], 0)])
  }

  lemma {:induction false} AddedCounts<S, I>(p: Plane<S, I>, id: string, s: S)
    requires OrderOk(p) && s !in p.recs
    ensures CountIn(p.order, Unpending(Added(p, id, s))) > 0 <==> exists q <- p.order :: p.recs[q.1].pending == map[]
  {
    var idle := Unpending(Added(p, id, s));
    if q :| q in p.order && p.recs[q.1].pending == map[] {
      CountPositive(p.order, idle, q);
    } else if CountIn(p.order, idle) > 0 {
      CountedIsThere(p.order, idle);
    }
  }

  lemma {:induction false} CountedIsThere<V>(m: seq<(string, V)>, s: set<V>)
    requires CountIn(m, s) > 0
    ensures exists q <- m :: q.1 in s
  {
    if m[0].1 !in s {
      CountedIsThere(m[1..], s);
      var q :| q in m[1..] && q.1 in s;
      assert q in m;
    }
  }

  /**
   The state returned is in the map exactly when its sandbox was known, or there was room,
   or some older state had no issue pending and could make room.
   */
  lemma {:induction false} StateIsKeptIff<S, I>(p: Plane<S, I>, id: string, s: S)
    requires Inv(p) && Enabled(p, StateForStep(id, s))
    ensures (id, Returned(p, id, s)) in StateFor(p, id, s).order <==> WillKeep(p, id)
  {
    GetFinds(p.order, id);
    if Get(p.order, id).None? {
      var q, last := Added(p, id, s), (id, s);
      AppendKeepsDistinct(p.order, last);
      TrimFromIsSweep(q, [], q.order);
      assert [] + q.order == q.order;
      assert [] + Sweep(q.order, Unpending(q), Excess(q)) == Sweep(q.order, Unpending(q), Excess(q));
      SweepKeepsLast(p.order, last, Unpending(q), Excess(q));
      AddedCounts(p, id, s);
      hide Sweep, TrimFrom, DistinctKeys, CountIn, Get;
    }
  }

  /** The issue is in flight, for this state. */
  ghost predicate InFlightFor<S, I>(p: Plane<S, I>, j: I, s: S) {
    j in p.issues && p.issues[j].state == s && p.issues[j].phase != Settled
  }

  lemma {:induction false} SweepKeepsOthers<V>(m: seq<(string, V)>, removable: set<V>, excess: nat, q: (string, V))
    requires q in m && q.1 !in removable
    ensures q in Sweep(m, removable, excess)
  {
    if m[0] != q && excess > 0 {
      SweepKeepsOthers(m[1..], removable, if m[0].1 in removable then excess - 1 else excess, q);
    }
  }

  lemma {:induction false} TrimmingKeepsPending<S, I>(p: Plane<S, I>, q: (string, S))
    requires DistinctKeys(p.order) && q in p.order && q.1 in p.recs && p.recs[q.1].pending != map[]
    ensures q in TrimStates(p).order
  {
    TrimFromIsSweep(p, [], p.order);
    assert [] + p.order == p.order;
    SweepKeepsOthers(p.order, Unpending(p), Excess(p), q);
    assert [] + Sweep(p.order, Unpending(p), Excess(p)) == Sweep(p.order, Unpending(p), Excess(p));
    hide Sweep, TrimFrom;
  }

  /** While a credential issue of a state is in flight, exactly discarding its sandbox drops it. */
  lemma {:induction false} OnlyDiscardDropsMidIssue<S, I>(p: Plane<S, I>, step: Step<S, I>, id: string, s: S, j: I)
    requires Inv(p) && Enabled(p, step) && (id, s) in p.order
    requires InFlightFor(p, j, s) && InFlightFor(Next(p, step), j, s)
    ensures (id, s) !in Next(p, step).order <==> step == DiscardSandboxStep(id)
  {
    assert InSlot(p, j);
    GetIsMembership(p.order, id, s);
    match step {
      case StateForStep(i, t) =>
        GetFinds(p.order, i);
        if Get(p.order, i).None? {
          AppendKeepsDistinct(p.order, (i, t));
          TrimmingKeepsPending(Added(p, i, t), (id, s));
        } else {
          DeleteMembers(p.order, i);
        }
        hide TrimStates, Delete, DistinctKeys;
      case SettleStep(i) =>
        assert InSlot(p, i);
        TrimFromSame(Unpend(p, i), Unpend(p, i).order);
        UnpendKeeps(p, i);
        assert InSlot(Unpend(p, i), j);
        TrimmingKeepsPending(Unpend(p, i), (id, s));
        hide TrimStates, DistinctKeys, Unpend;
      case DiscardSandboxStep(i) => DeleteMembers(p.order, i);
      case EnsureStep(_, _, _, _) =>
      case StoreStep(_, _) =>
      case RetryAtStep(_, _) =>
    }
  }

  // ----- What becomes of it -----------------------------------------------------------

  /** A state that exists and that the map does not hold. */
  ghost predicate Detached<S, I>(p: Plane<S, I>, s: S) {
    s in p.recs && forall q <- p.order :: q.1 != s
  }

  lemma {:induction false} TrimmingAddsNothing<S, I>(p: Plane<S, I>)
    requires DistinctKeys(p.order)
    ensures TrimStates(p).recs == p.recs
    ensures forall q <- TrimStates(p).order :: q in p.order
  {
    TrimFromSame(p, p.order);
    TrimFromIsSweep(p, [], p.order);
    assert [] + p.order == p.order;
    SweepMembers(p.order, Unpending(p), Excess(p));
    hide TrimFrom;
    assert [] + Sweep(p.order, Unpending(p), Excess(p)) == Sweep(p.order, Unpending(p), Excess(p));
  }

  /** No step brings a detached state back. */
  lemma {:induction false} DetachedForGood<S, I>(p: Plane<S, I>, step: Step<S, I>, s: S)
    requires Inv(p) && Enabled(p, step) && Detached(p, s)
    ensures Detached(Next(p, step), s)
  {
    match step {
      case StateForStep(id, t) =>
        GetFinds(p.order, id);
        if Get(p.order, id).None? {
          AppendKeepsDistinct(p.order, (id, t));
          TrimmingAddsNothing(Added(p, id, t));
        } else {
          DeleteMembers(p.order, id);
        }
        hide TrimStates, Get, Delete, DistinctKeys;
      case SettleStep(i) =>
        assert InSlot(p, i);
        TrimmingAddsNothing(Unpend(p, i));
      case StoreStep(i, _) => assert InSlot(p, i);
      case DiscardSandboxStep(id) => DeleteMembers(p.order, id);
      case EnsureStep(_, _, _, _) =>
      case RetryAtStep(_, _) =>
    }
  }

  /** Nor does any run. */
  lemma {:induction false} DetachedThroughRuns<S, I, E, L>(
      y: System<S, I, E, L>, steps: seq<SystemStep<S, I, E, L>>, maxIdle: nat, s: S)
    requires SystemInv(y, maxIdle) && Run(y, steps, maxIdle).Some? && Detached(y.plane, s)
    ensures Detached(Run(y, steps, maxIdle).value.plane, s)
    decreases |steps|
  {
    if steps != [] {
      SystemStepKeepsInv(y, steps[0], maxIdle);
      if steps[0].CacheStep? {
        DetachedForGood(y.plane, steps[0].step, s);
      }
      hide Inv, Next, Detached, P.Inv, P.Next, P.Enabled, Enabled;
      DetachedThroughRuns(SystemNext(y, steps[0], maxIdle), steps[1..], maxIdle, s);
    }
  }

  /** A new bundle is within reach of a sandbox's discard exactly when the map still holds its issue's state there. */
  lemma {:induction false} StoredBundleIsReachedIff<S, I>(p: Plane<S, I>, i: I, bundle: Bundle, id: string)
    requires Inv(p) && Enabled(p, StoreStep(i, bundle))
    requires forall t <- p.recs :: !KeyIn(p, t, bundle.cacheKey)
    ensures p.issues[i].state in p.recs
    ensures HeldUnder(StoreBundle(p, i, bundle), id, bundle.cacheKey) <==> Get(p.order, id) == Some(p.issues[i].state)
  {
    assert InSlot(p, i);
    var issue := p.issues[i];
    PutKeys(p.recs[issue.state].credentials, issue.permission, bundle, bundle.cacheKey);
    GetFinds(p.order, id);
    hide Put, CacheKeys;
  }

  /** Of all the states ever made, only this one has a bundle with the key. */
  ghost predicate OnlyIn<S, I>(p: Plane<S, I>, s: S, key: string) {
    forall t <- p.recs :: KeyIn(p, t, key) ==> t == s
  }

  ghost predicate StoresKey<S, I, E, L>(step: SystemStep<S, I, E, L>, key: string) {
    step.CacheStep? && step.step.StoreStep? && step.step.bundle.cacheKey == key
  }

  lemma {:induction false} StaysOnlyIn<S, I>(p: Plane<S, I>, step: Step<S, I>, s: S, key: string)
    requires Inv(p) && Enabled(p, step) && OnlyIn(p, s, key)
    requires step.StoreStep? ==> step.bundle.cacheKey != key
    ensures OnlyIn(Next(p, step), s, key)
  {
    match step {
      case StateForStep(id, t) =>
        var q := Added(p, id, t);
        TrimFromSame(q, q.order);
        hide TrimFrom, Get;
        assert forall u <- q.recs :: KeyIn(q, u, key) ==> KeyIn(p, u, key);
      case StoreStep(i, bundle) =>
        assert InSlot(p, i);
        var issue := p.issues[i];
        PutKeys(p.recs[issue.state].credentials, issue.permission, bundle, key);
        var q := StoreBundle(p, i, bundle);
        hide Put, Get, CacheKeys;
        assert forall u <- q.recs :: KeyIn(q, u, key) ==> KeyIn(p, u, key);
      case SettleStep(i) =>
        assert InSlot(p, i);
        var q := Unpend(p, i);
        TrimFromSame(q, q.order);
        hide TrimFrom;
        assert forall u <- q.recs :: KeyIn(q, u, key) ==> KeyIn(p, u, key);
      case EnsureStep(t, permission, now, i) =>
        var q := EnsureCredential(p, t, permission, now, i);
        assert forall u <- q.recs :: KeyIn(q, u, key) ==> KeyIn(p, u, key);
      case DiscardSandboxStep(id) =>
        var q := DiscardSandbox(p, id);
        assert forall u <- q.recs :: KeyIn(q, u, key) ==> KeyIn(p, u, key);
      case RetryAtStep(t, at) =>
        var q := Next(p, step);
        assert forall u <- q.recs :: KeyIn(q, u, key) ==> KeyIn(p, u, key);
    }
  }

  /**
   A bundle that only a detached state has is missed for good: after any run, whatever
   sandbox is discarded, its channel stays cached. Cache keys carry a certificate's
   fingerprint, so no other bundle gets the same one.
   */
  lemma {:induction false} DiscardMissesDetached<S, I, E, L>(
      y: System<S, I, E, L>, steps: seq<SystemStep<S, I, E, L>>, maxIdle: nat, s: S, key: string, id: string)
    requires SystemInv(y, maxIdle) && Run(y, steps, maxIdle).Some?
    requires Detached(y.plane, s) && OnlyIn(y.plane, s, key) && forall step <- steps :: !StoresKey(step, key)
    ensures var z := Run(y, steps, maxIdle).value;
      key in KeysOf(z.pool.order) ==> key in KeysOf(AfterDiscard(z, id, maxIdle).pool.order)
    decreases |steps|
  {
    if steps == [] {
      if key in KeysOf(y.pool.order) {
        DiscardRetiresIff(y, id, key, maxIdle);
        GetFinds(y.plane.order, id);
      }
    } else {
      SystemStepKeepsInv(y, steps[0], maxIdle);
      assert !StoresKey(steps[0], key);
      if steps[0].CacheStep? {
        DetachedForGood(y.plane, steps[0].step, s);
        StaysOnlyIn(y.plane, steps[0].step, s, key);
      }
      hide Inv, Next, Detached, P.Inv, P.Next, P.Enabled, Enabled, OnlyIn, StoresKey;
      DiscardMissesDetached(SystemNext(y, steps[0], maxIdle), steps[1..], maxIdle, s, key, id);
    }
  }

  /** The sandbox whose state was trimmed at once has none in the map, so discarding it changes nothing. */
  lemma {:induction false} DroppedAtBirth<S, I>(p: Plane<S, I>, id: string, s: S)
    requires Inv(p) && Enabled(p, StateForStep(id, s)) && !WillKeep(p, id)
    ensures var q := StateFor(p, id, s);
      Detached(q, s) && Get(q.order, id).None? && DiscardSandbox(q, id) == q
  {
    StateIsKeptIff(p, id, s);
    GetFinds(p.order, id);
    AppendKeepsDistinct(p.order, (id, s));
    TrimmingAddsNothing(Added(p, id, s));
    var q := StateFor(p, id, s);
    assert q == TrimStates(Added(p, id, s));
    hide TrimStates, Get, DistinctKeys;
    GetFinds(q.order, id);
    forall x <- q.order ensures x.1 != s && x.0 != id {
      assert x in p.order || x == (id, s);
    }
  }

  // ----- A run that comes to it -------------------------------------------------------

  type Sys = System<int, int, int, int>

  type SysStep = SystemStep<int, int, int, int>

  ghost predicate Reaches(y: Sys, maxIdle: nat) {
    exists steps: seq<SysStep> :: RunFromEmpty(steps, maxIdle) == Some(y)
  }

  lemma {:induction false} RunThen(y: Sys, steps: seq<SysStep>, step: SysStep, maxIdle: nat)
    requires SystemInv(y, maxIdle) && Run(y, steps, maxIdle).Some?
    requires SystemEnabled(Run(y, steps, maxIdle).value, step)
    ensures Run(y, steps + [step], maxIdle) == Some(SystemNext(Run(y, steps, maxIdle).value, step, maxIdle))
    decreases |steps|
  {
    hide SystemInv, SystemNext, SystemEnabled;
    if steps == [] {
      SystemStepKeepsInv(y, step, maxIdle);
      assert steps + [step] == [step];
      assert Run(SystemNext(y, step, maxIdle), [], maxIdle) == Some(SystemNext(y, step, maxIdle));
    } else {
      SystemStepKeepsInv(y, steps[0], maxIdle);
      assert (steps + [step])[1..] == steps[1..] + [step];
      RunThen(SystemNext(y, steps[0], maxIdle), steps[1..], step, maxIdle);
    }
  }

  lemma {:induction false} Reached(y: Sys, maxIdle: nat)
    requires Reaches(y, maxIdle)
    ensures SystemInv(y, maxIdle)
  {
    hide SystemInv, SystemNext, SystemEnabled;
    var steps: seq<SysStep> :| RunFromEmpty(steps, maxIdle) == Some(y);
    EmptyIsSound<int, int, int, int>(maxIdle);
    assert RunFromEmpty(steps, maxIdle) == Run(Empty(), steps, maxIdle);
  }

  lemma {:induction false} ReachesNext(y: Sys, step: SysStep, maxIdle: nat)
    requires SystemInv(y, maxIdle) && Reaches(y, maxIdle) && SystemEnabled(y, step)
    ensures Reaches(SystemNext(y, step, maxIdle), maxIdle)
    ensures SystemInv(SystemNext(y, step, maxIdle), maxIdle)
  {
    SystemStepKeepsInv(y, step, maxIdle);
    hide SystemInv, SystemNext, SystemEnabled;
    var steps: seq<SysStep> :| RunFromEmpty(steps, maxIdle) == Some(y);
    EmptyIsSound<int, int, int, int>(maxIdle);
    RunThen(Empty(), steps, step, maxIdle);
    assert RunFromEmpty(steps + [step], maxIdle) == Some(SystemNext(y, step, maxIdle));
  }

  /** Sandbox ids that differ in length. */
  function Id(k: nat): string { seq(k, _ => 'x') }

  /** `k` sandboxes, each with an issue pending and nothing stored. */
  ghost predicate Filled(p: Plane<int, int>, k: nat) {
    && |p.order| == k && p.retired == []
    && (forall i | 0 <= i < k :: p.order[i] == (Id(i), i))
    && (forall s :: s in p.recs <==> 0 <= s < k)
    && (forall i :: i in p.issues <==> 0 <= i < k)
    && (forall s <- p.recs :: p.recs[s].pending != map[] && p.recs[s].credentials == [])
  }

  lemma {:induction false} IdIsNew(p: Plane<int, int>, k: nat)
    requires Filled(p, k) && OrderOk(p)
    ensures Get(p.order, Id(k)).None?
  {
    GetFinds(p.order, Id(k));
    forall q <- p.order ensures q.0 != Id(k) {
      var i :| 0 <= i < k && p.order[i] == q;
      assert |q.0| == i && |Id(k)| == k;
    }
  }

  /** One more sandbox, before its issue starts. */
  lemma {:induction false} AddOne(p: Plane<int, int>, k: nat)
    requires Inv(p) && Filled(p, k) && k < MAX_SANDBOX_STATES
    ensures Enabled(p, StateForStep(Id(k), k)) && StateFor(p, Id(k), k) == Added(p, Id(k), k)
  {
    IdIsNew(p, k);
    hide Get, DistinctKeys;
  }

  lemma {:induction false} StartOne(p: Plane<int, int>, k: nat)
    requires Filled(p, k)
    ensures var q := Added(p, Id(k), k);
      && Enabled(q, EnsureStep(k, ReadFile, 0, k)) && q.retired == []
      && Filled(EnsureCredential<int, int>(q, k, ReadFile, 0, k), k + 1)
  {
    var q := Added(p, Id(k), k);
    assert !Fresh(q.recs[k], ReadFile, 0);
    var r := EnsureCredential<int, int>(q, k, ReadFile, 0, k);
    assert r.recs[k].pending[ReadFile] == k;
  }

  lemma {:induction false} NothingRetired(y: Sys, step: Step<int, int>, maxIdle: nat)
    requires SystemInv(y, maxIdle) && Enabled(y.plane, step) && Next(y.plane, step).retired == y.plane.retired
    ensures SystemNext(y, CacheStep(step), maxIdle) == y.(plane := Next(y.plane, step))
  {
    P.DiscardNoKeys(y.pool);
    assert NewlyRetired(y.plane, Next(y.plane, step)) == [];
    hide P.DiscardKeys;
  }

  lemma {:induction false} CacheStepOnly(y: Sys, step: Step<int, int>, maxIdle: nat)
    requires SystemInv(y, maxIdle) && Reaches(y, maxIdle)
    requires Enabled(y.plane, step) && Next(y.plane, step).retired == y.plane.retired
    ensures Reaches(y.(plane := Next(y.plane, step)), maxIdle)
    ensures SystemInv(y.(plane := Next(y.plane, step)), maxIdle)
  {
    hide Next, Reaches;
    NothingRetired(y, step, maxIdle);
    ReachesNext(y, CacheStep(step), maxIdle);
  }

  /** 2048 sandboxes whose issues are all pending. */
  lemma {:induction false} Fill(maxIdle: nat) returns (y: Sys)
    ensures Reaches(y, maxIdle) && SystemInv(y, maxIdle)
    ensures Filled(y.plane, MAX_SANDBOX_STATES) && y.pool == P.Empty()
  {
    y := Empty();
    EmptyIsSound<int, int, int, int>(maxIdle);
    assert RunFromEmpty<int, int, int, int>([], maxIdle) == Some(y);
    hide Reaches, Inv, P.Inv, Filled, StateFor, EnsureCredential;
    assert Filled(y.plane, 0) by { FilledEmpty(); }
    for k := 0 to MAX_SANDBOX_STATES
      invariant Reaches(y, maxIdle) && SystemInv(y, maxIdle)
      invariant Filled(y.plane, k) && y.pool == P.Empty()
    {
      y := FillOne(y, k, maxIdle);
    }
  }

  lemma FilledEmpty()
    ensures Filled(Empty<int, int, int, int>().plane, 0)
  {
  }

  lemma {:induction false} FillOne(y: Sys, k: nat, maxIdle: nat) returns (z: Sys)
    requires Reaches(y, maxIdle) && SystemInv(y, maxIdle) && Filled(y.plane, k) && k < MAX_SANDBOX_STATES
    ensures Reaches(z, maxIdle) && SystemInv(z, maxIdle) && Filled(z.plane, k + 1) && z.pool == y.pool
  {
    assert y.plane.retired == [];
    AddOne(y.plane, k);
    StartOne(y.plane, k);
    var q := Added(y.plane, Id(k), k);
    assert q.retired == [];
    var r := EnsureCredential<int, int>(q, k, ReadFile, 0, k);
    assert r.retired == [];
    hide Reaches, Inv, P.Inv, Filled, StateFor, EnsureCredential, Added, Enabled, SystemInv;
    CacheStepOnly(y, StateForStep(Id(k), k), maxIdle);
    z := y.(plane := q);
    CacheStepOnly(z, EnsureStep(k, ReadFile, 0, k), maxIdle);
    z := z.(plane := r);
  }

  ghost predicate NothingStored(p: Plane<int, int>) {
    forall s <- p.recs :: p.recs[s].credentials == []
  }

  lemma {:induction false} DiscardRetiresNothing(p: Plane<int, int>, id: string)
    requires NothingStored(p)
    ensures DiscardSandbox(p, id).retired == p.retired && NothingStored(DiscardSandbox(p, id))
  {
    match Get(p.order, id)
    case None =>
    case Some(s) =>
      if s in p.recs {
        assert CacheKeys(p.recs[s].credentials) == [];
      }
      assert p.retired + [] == p.retired;
  }

  lemma {:induction false} TrimmingRetiresNothing(p: Plane<int, int>, rest: seq<(string, int)>)
    requires NothingStored(p)
    ensures TrimFrom(p, rest).retired == p.retired
    decreases |rest|
  {
    if rest != [] {
      var q := DiscardSandbox(p, rest[0].0);
      DiscardRetiresNothing(p, rest[0].0);
      TrimmingRetiresNothing(p, rest[1..]);
      TrimmingRetiresNothing(q, rest[1..]);
    }
  }

  /** With 2048 issues pending, the next sandbox's state is trimmed as soon as it is added. */
  lemma {:induction false} DetachOne(p: Plane<int, int>, k: nat)
    requires Inv(p) && Filled(p, k) && k == MAX_SANDBOX_STATES
    ensures Enabled(p, StateForStep(Id(k), k)) && !WillKeep(p, Id(k))
    ensures StateFor(p, Id(k), k).retired == []
    ensures var q := StateFor(p, Id(k), k); k in q.recs && q.recs[k] == StateRec([], map[], 0) && k !in q.issues
  {
    IdIsNew(p, k);
    forall q <- p.order ensures p.recs[q.1].pending != map[] {
      var i :| 0 <= i < k && p.order[i] == q;
    }
    AppendKeepsDistinct(p.order, (Id(k), k));
    assert DistinctKeys(Added(p, Id(k), k).order);
    hide Get, DistinctKeys;
    var a := Added(p, Id(k), k);
    TrimmingRetiresNothing(a, a.order);
    TrimmingAddsNothing(a);
    TrimFromSame(a, a.order);
    hide TrimFrom;
  }

  /** The cache with an issue running, and then stored, in a detached state. */
  ghost predicate Stranded(p: Plane<int, int>, k: nat, key: string) {
    && Detached(p, k) && Get(p.order, Id(k)).None?
    && exists permission, bundle :: (permission, bundle) in p.recs[k].credentials && bundle.cacheKey == key
  }

  lemma {:induction false} StoreInDetached(q: Plane<int, int>, k: nat, key: string)
    requires Detached(q, k) && Get(q.order, Id(k)).None? && q.recs[k] == StateRec([], map[], 0) && k !in q.issues
    ensures Enabled(q, EnsureStep(k, ReadFile, 0, k))
    ensures var r := EnsureCredential<int, int>(q, k, ReadFile, 0, k);
      && r.retired == q.retired && Enabled(r, StoreStep(k, Bundle(key, 0)))
      && k in r.issues && r.issues[k].state in r.recs
      && StoreBundle<int, int>(r, k, Bundle(key, 0)).retired == q.retired
      && Stranded(StoreBundle<int, int>(r, k, Bundle(key, 0)), k, key)
  {
    assert !Fresh(q.recs[k], ReadFile, 0);
    var r := EnsureCredential<int, int>(q, k, ReadFile, 0, k);
    var p := StoreBundle<int, int>(r, k, Bundle(key, 0));
    assert p.recs[k].credentials == [(ReadFile, Bundle(key, 0))];
    assert (ReadFile, Bundle(key, 0)) in p.recs[k].credentials;
  }

  /**
   A run after which a sandbox has a channel that discarding the sandbox does not retire:
   its bundle is stored in a state that was detached when it was added.
   */
  lemma {:induction false} ChannelCanBeStranded(maxIdle: nat) returns (y: Sys, id: string, k: nat, key: string)
    ensures Reaches(y, maxIdle) && SystemInv(y, maxIdle)
    ensures id == Id(k) && Stranded(y.plane, k, key) && key in KeysOf(y.pool.order)
    ensures SystemNext(y, CacheStep(DiscardSandboxStep(id)), maxIdle) == y
  {
    y := Fill(maxIdle);
    k, id, key := MAX_SANDBOX_STATES, Id(MAX_SANDBOX_STATES), "key";
    assert y.plane.retired == [];
    DetachOne(y.plane, k);
    DroppedAtBirth(y.plane, id, k);
    var q := StateFor(y.plane, id, k);
    StoreInDetached(q, k, key);
    var r := EnsureCredential<int, int>(q, k, ReadFile, 0, k);
    var p := StoreBundle<int, int>(r, k, Bundle(key, 0));
    AcquiredIsCached(key);
    hide Reaches, Inv, P.Inv, Filled, StateFor, EnsureCredential, StoreBundle, Enabled, SystemInv, Stranded, P.Acquire,
      Detached, Get;
    CacheStepOnly(y, StateForStep(id, k), maxIdle);
    y := y.(plane := q);
    CacheStepOnly(y, EnsureStep(k, ReadFile, 0, k), maxIdle);
    y := y.(plane := r);
    CacheStepOnly(y, StoreStep(k, Bundle(key, 0)), maxIdle);
    y := y.(plane := p);
    y := Connect(y, key, maxIdle);
    DiscardIsVoid(y, id, k, key, maxIdle);
  }

  lemma {:induction false} AcquiredIsCached(key: string)
    ensures key in KeysOf(P.Acquire(P.Empty<int, int>(), key, 0, 0).order)
  {
    var p := P.Acquire(P.Empty<int, int>(), key, 0, 0);
    var added := P.AddEntry(P.Empty<int, int>(), key, 0);
    assert p == P.AddLease(added, key, 0, 0);
    assert (key, 0) in MoveToEnd(added.order, key, 0);
    assert (key, 0) in p.order;
  }

  lemma {:induction false} Connect(y: Sys, key: string, maxIdle: nat) returns (z: Sys)
    requires Reaches(y, maxIdle) && SystemInv(y, maxIdle) && y.pool == P.Empty()
    ensures Reaches(z, maxIdle) && SystemInv(z, maxIdle)
    ensures z.plane == y.plane && key in KeysOf(z.pool.order)
  {
    AcquiredIsCached(key);
    var step := P.AcquireStep(key, 0, 0);
    assert P.Enabled(y.pool, step);
    z := SystemNext(y, PoolStep(step), maxIdle);
    assert z.pool == P.Acquire(P.Empty<int, int>(), key, 0, 0);
    hide Reaches, Inv, P.Inv, P.Acquire;
    ReachesNext(y, PoolStep(step), maxIdle);
  }

  lemma {:induction false} DiscardIsVoid(y: Sys, id: string, k: nat, key: string, maxIdle: nat)
    requires SystemInv(y, maxIdle) && id == Id(k) && Stranded(y.plane, k, key)
    ensures SystemNext(y, CacheStep(DiscardSandboxStep(id)), maxIdle) == y
  {
    assert DiscardSandbox(y.plane, id) == y.plane;
    NothingRetired(y, DiscardSandboxStep(id), maxIdle);
  }

  // ----- The same with a single sandbox ---------------------------------------------------

  /** The one state, with or without an issue, whose bundle may have come. */
  ghost function One(order: seq<(string, int)>, credentials: seq<(Permission, Bundle)>, pending: map<Permission, int>,
                     issues: map<int, IssueRec<int>>): Plane<int, int>
  {
    Plane(order, map[0 := StateRec(credentials, pending, 0)], issues, [])
  }

  const ISSUING: map<int, IssueRec<int>> := map[0 := IssueRec(0, ReadFile, Running)]

  /** A first use of a sandbox, up to its credential request. */
  lemma {:induction false} FirstUse(id: string)
    ensures var p := StateFor<int, int>(Empty<int, int, int, int>().plane, id, 0);
      && p == One([(id, 0)], [], map[], map[])
      && EnsureCredential<int, int>(p, 0, ReadFile, 0, 0) == One([(id, 0)], [], map[ReadFile := 0], ISSUING)
  {
    var p := StateFor<int, int>(Empty<int, int, int, int>().plane, id, 0);
    assert p == TrimStates(One([(id, 0)], [], map[], map[]));
    assert p == One([(id, 0)], [], map[], map[]);
    var q := EnsureCredential<int, int>(p, 0, ReadFile, 0, 0);
    assert q.recs == map[0 := StateRec([], map[ReadFile := 0], 0)] && q.issues == ISSUING;
  }

  /** Its discard, and then the bundle that comes all the same. */
  lemma {:induction false} DiscardThenStore(id: string, key: string)
    ensures DiscardSandbox(One([(id, 0)], [], map[ReadFile := 0], ISSUING), id)
         == One([], [], map[ReadFile := 0], ISSUING)
    ensures var p := One([], [], map[ReadFile := 0], ISSUING);
      && Enabled(p, StoreStep(0, Bundle(key, 0))) && p.issues[0].state in p.recs
      && var q := StoreBundle<int, int>(p, 0, Bundle(key, 0));
         q.order == [] && q.retired == [] && q.recs.Keys == {0} && KeyIn(q, 0, key)
  {
    var p := One([(id, 0)], [], map[ReadFile := 0], ISSUING);
    assert Get(p.order, id) == Some(0) && Delete(p.order, id) == [];
    assert DiscardSandbox(p, id).retired == [];
    var q := StoreBundle<int, int>(One([], [], map[ReadFile := 0], ISSUING), 0, Bundle(key, 0));
    assert q.recs[0].credentials == [(ReadFile, Bundle(key, 0))];
  }

  /** A sandbox is used for the first time, and discarded while its credential is being issued. */
  lemma {:induction false} DiscardMidIssue(id: string, maxIdle: nat) returns (y: Sys)
    ensures Reaches(y, maxIdle) && SystemInv(y, maxIdle) && y.pool == P.Empty()
    ensures y.plane == One([], [], map[ReadFile := 0], ISSUING)
  {
    y := Empty();
    EmptyIsSound<int, int, int, int>(maxIdle);
    assert RunFromEmpty<int, int, int, int>([], maxIdle) == Some(y);
    FirstUse(id);
    DiscardThenStore(id, "");
    assert Enabled(y.plane, StateForStep(id, 0));
    hide Reaches, Inv, P.Inv, StateFor, EnsureCredential, DiscardSandbox, TrimStates, Get;
    CacheStepOnly(y, StateForStep(id, 0), maxIdle);
    y := y.(plane := One([(id, 0)], [], map[], map[]));
    CacheStepOnly(y, EnsureStep(0, ReadFile, 0, 0), maxIdle);
    y := y.(plane := One([(id, 0)], [], map[ReadFile := 0], ISSUING));
    CacheStepOnly(y, DiscardSandboxStep(id), maxIdle);
    y := y.(plane := One([], [], map[ReadFile := 0], ISSUING));
  }

  /** With no state in the map, no discard does anything, and no channel is within reach of one. */
  lemma {:induction false} NothingInTheMap(y: Sys, key: string, maxIdle: nat)
    requires SystemInv(y, maxIdle) && y.plane.order == [] && key in KeysOf(y.pool.order)
    ensures !Covered(y) && forall other :: AfterDiscard(y, other, maxIdle) == y
  {
    forall other ensures AfterDiscard(y, other, maxIdle) == y {
      assert DiscardSandbox(y.plane, other) == y.plane;
      NothingRetired(y, DiscardSandboxStep(other), maxIdle);
    }
    var q :| q in y.pool.order && q.0 == key;
    assert !Held(y.plane, q.0);
  }

  /**
   Five steps and one sandbox are enough: it is discarded while its credential is issued, the
   bundle is stored all the same, and the caller connects with it. No discard retires that channel.
   */
  lemma {:induction false} OneSandboxIsEnough(id: string, key: string, maxIdle: nat) returns (y: Sys)
    ensures Reaches(y, maxIdle) && SystemInv(y, maxIdle)
    ensures |y.plane.recs| == 1 && Detached(y.plane, 0) && KeyIn(y.plane, 0, key)
    ensures key in KeysOf(y.pool.order) && !Covered(y)
    ensures forall other :: AfterDiscard(y, other, maxIdle) == y
  {
    y := DiscardMidIssue(id, maxIdle);
    DiscardThenStore(id, key);
    var p := StoreBundle<int, int>(y.plane, 0, Bundle(key, 0));
    assert |p.recs| == |p.recs.Keys| == 1;
    hide Reaches, SystemInv, StoreBundle, One, Enabled, KeyIn, Covered, AfterDiscard;
    CacheStepOnly(y, StoreStep(0, Bundle(key, 0)), maxIdle);
    y := y.(plane := p);
    y := Connect(y, key, maxIdle);
    NothingInTheMap(y, key, maxIdle);
  }
}
