/**
 The per-sandbox credential cache of `DirectDataPlane` (direct-data-plane.ts): one
 record per sandbox, single-flight credential issues, and a bounded state map.

 As in ChannelPool, a step is the code between two suspension points. An issue runs,
 then (on success) stores its bundle, then settles: those are three separate steps
 and any other step may come between them. `retired` is the log of cache keys handed
 to the pool's `discard`.
 */
module CredentialCache {
  import opened Wrappers
  import opened OrderedMap
  import P = ChannelPool

  const EXPIRY_SKEW_MS := 30_000
  const MAX_SANDBOX_STATES: nat := 2_048

  datatype Permission = ReadFile | WriteFile | StreamExec

  datatype Bundle = Bundle(cacheKey: string, expiresAtMs: int)

  datatype StateRec<I> = StateRec(
    credentials: seq<(Permission, Bundle)>, pending: map<Permission, I>, retryAtMs: int)

  datatype Phase = Running | Stored | Settled

  datatype IssueRec<S> = IssueRec(state: S, permission: Permission, phase: Phase)

  /** `order` is the `states` map; `recs` and `issues` are every state and issue ever made. */
  datatype Plane<S, I> = Plane(
    order: seq<(string, S)>,
    recs: map<S, StateRec<I>>,
    issues: map<I, IssueRec<S>>,
    retired: seq<string>)

  // ----- Steps ---------------------------------------------------------------

  function CacheKeys(credentials: seq<(Permission, Bundle)>): seq<string> {
    if credentials == [] then [] else [credentials[0].1.cacheKey] + CacheKeys(credentials[1..])
  }

  /** `discardSandbox`. */
  ghost function DiscardSandbox<S, I>(p: Plane<S, I>, id: string): Plane<S, I> {
    match Get(p.order, id)
    case None => p
    case Some(s) =>
      p.(order := Delete(p.order, id),
         retired := p.retired + if s in p.recs then CacheKeys(p.recs[s].credentials) else [])
  }

  /** `trimStates`' loop, with the pairs still to be visited. */
  ghost function TrimFrom<S, I>(p: Plane<S, I>, rest: seq<(string, S)>): Plane<S, I>
    decreases |rest|
  {
    if rest == [] || |p.order| <= MAX_SANDBOX_STATES then p
    else if rest[0].1 in p.recs && p.recs[rest[0].1].pending == map[]
    then TrimFrom(DiscardSandbox(p, rest[0].0), rest[1..])
    else TrimFrom(p, rest[1..])
  }

  ghost function TrimStates<S, I>(p: Plane<S, I>): Plane<S, I> {
    TrimFrom(p, p.order)
  }

  /** `stateFor`; `s` is the new state object if there is none yet. */
  ghost function StateFor<S, I>(p: Plane<S, I>, id: string, s: S): Plane<S, I> {
    match Get(p.order, id)
    case None => TrimStates(p.(order := p.order + [(id, s)], recs := p.recs[s := StateRec([], map[], 0)]))
    case Some(found) => p.(order := MoveToEnd(p.order, id, found))
  }

  predicate Fresh<I>(rec: StateRec<I>, permission: Permission, now: int) {
    match Get(rec.credentials, permission)
    case None => false
    case Some(bundle) => bundle.expiresAtMs > now + EXPIRY_SKEW_MS
  }

  /** `ensureCredential`; `i` is the issue started if one is needed. */
  ghost function EnsureCredential<S, I>(p: Plane<S, I>, s: S, permission: Permission, now: int, i: I): Plane<S, I>
    requires s in p.recs
  {
    var rec := p.recs[s];
    if Fresh(rec, permission, now) || permission in rec.pending then p
    else p.(recs := p.recs[s := rec.(pending := rec.pending[permission := i])],
            issues := p.issues[i := IssueRec(s, permission, Running)])
  }

  function Put(credentials: seq<(Permission, Bundle)>, permission: Permission, bundle: Bundle)
    : seq<(Permission, Bundle)>
  {
    if credentials == [] then [(permission, bundle)]
    else if credentials[0].0 == permission then [(permission, bundle)] + credentials[1..]
    else [credentials[0]] + Put(credentials[1..], permission, bundle)
  }

  /** The `then` of an issue that succeeded. */
  ghost function StoreBundle<S, I>(p: Plane<S, I>, i: I, bundle: Bundle): Plane<S, I>
    requires i in p.issues && p.issues[i].state in p.recs
  {
    var issue := p.issues[i];
    var rec := p.recs[issue.state];
    var replaced := Get(rec.credentials, issue.permission);
    p.(recs := p.recs[issue.state := rec.(credentials := Put(rec.credentials, issue.permission, bundle))],
       issues := p.issues[i := issue.(phase := Stored)],
       retired := p.retired + if replaced.Some? && replaced.value.cacheKey != bundle.cacheKey
                              then [replaced.value.cacheKey] else [])
  }

  /** The `finally` of an issue: its pending slot is deleted and the map trimmed. */
  ghost function Unpend<S, I>(p: Plane<S, I>, i: I): Plane<S, I>
    requires i in p.issues && p.issues[i].state in p.recs
  {
    var issue := p.issues[i];
    var rec := p.recs[issue.state];
    p.(recs := p.recs[issue.state := rec.(pending := rec.pending - {issue.permission})],
       issues := p.issues[i := issue.(phase := Settled)])
  }

  ghost function SettleIssue<S, I>(p: Plane<S, I>, i: I): Plane<S, I>
    requires i in p.issues && p.issues[i].state in p.recs
  {
    TrimStates(Unpend(p, i))
  }

  datatype Step<S, I> =
    | StateForStep(id: string, s: S)
    | EnsureStep(s: S, permission: Permission, now: int, i: I)
    | StoreStep(i: I, bundle: Bundle)
    | SettleStep(i: I)
    | DiscardSandboxStep(id: string)
    | RetryAtStep(s: S, retryAtMs: int)

  /** New objects are new; an issue stores at most once, while running, and settles once. */
  ghost predicate Enabled<S, I>(p: Plane<S, I>, step: Step<S, I>) {
    match step
    case StateForStep(id, s) => Get(p.order, id).None? ==> s !in p.recs
    case EnsureStep(s, _, _, i) => s in p.recs && i !in p.issues
    case StoreStep(i, _) => i in p.issues && p.issues[i].phase == Running
    case SettleStep(i) => i in p.issues && p.issues[i].phase != Settled
    case DiscardSandboxStep(_) => true
    case RetryAtStep(s, _) => s in p.recs
  }

  ghost function Next<S, I>(p: Plane<S, I>, step: Step<S, I>): Plane<S, I>
    requires Enabled(p, step)
    requires SingleFlight(p)
  {
    match step
    case StateForStep(id, s) => StateFor(p, id, s)
    case EnsureStep(s, permission, now, i) => EnsureCredential(p, s, permission, now, i)
    case StoreStep(i, bundle) => StoreBundle(p, i, bundle)
    case SettleStep(i) => SettleIssue(p, i)
    case DiscardSandboxStep(id) => DiscardSandbox(p, id)
    case RetryAtStep(s, t) => p.(recs := p.recs[s := p.recs[s].(retryAtMs := t)])
  }

  // ----- What every step keeps -----------------------------------------------

  /**
   The pending slots and the issues in flight are the same thing: an unsettled issue
   sits in its state's slot, and every slot holds an unsettled issue.
   */
  ghost predicate SingleFlight<S, I>(p: Plane<S, I>) {
    && (forall i <- p.issues :: p.issues[i].phase != Settled ==> InSlot(p, i))
    && (forall s <- p.recs, permission <- p.recs[s].pending :: SlotOk(p, s, permission))
  }

  ghost predicate InSlot<S, I>(p: Plane<S, I>, i: I)
    requires i in p.issues
  {
    var issue := p.issues[i];
    && issue.state in p.recs
    && issue.permission in p.recs[issue.state].pending
    && p.recs[issue.state].pending[issue.permission] == i
  }

  ghost predicate SlotOk<S, I>(p: Plane<S, I>, s: S, permission: Permission)
    requires s in p.recs && permission in p.recs[s].pending
  {
    var i := p.recs[s].pending[permission];
    && i in p.issues
    && p.issues[i].state == s && p.issues[i].permission == permission
    && p.issues[i].phase != Settled
  }

  ghost predicate OrderOk<S, I>(p: Plane<S, I>) {
    DistinctKeys(p.order) && forall q <- p.order :: q.1 in p.recs
  }

  /** At most 2048 states are kept, or every kept state has an issue in flight. */
  ghost predicate Bounded<S, I>(p: Plane<S, I>) {
    || |p.order| <= MAX_SANDBOX_STATES
    || forall q <- p.order :: q.1 in p.recs && p.recs[q.1].pending != map[]
  }

  ghost predicate Inv<S, I>(p: Plane<S, I>) {
    OrderOk(p) && SingleFlight(p) && Bounded(p)
  }

  // ----- Trimming ------------------------------------------------------------

  ghost function Unpending<S, I>(p: Plane<S, I>): set<S> {
    set s | s in p.recs && p.recs[s].pending == map[]
  }

  ghost function Excess<S, I>(p: Plane<S, I>): nat {
    if |p.order| <= MAX_SANDBOX_STATES then 0 else |p.order| - MAX_SANDBOX_STATES
  }

  ghost predicate SameStates<S, I>(p: Plane<S, I>, r: Plane<S, I>) {
    r.recs == p.recs && r.issues == p.issues
  }

  lemma {:induction false} DiscardHead<S, I>(p: Plane<S, I>, kept: seq<(string, S)>, rest: seq<(string, S)>)
    requires rest != [] && p.order == kept + rest && DistinctKeys(p.order)
    ensures DiscardSandbox(p, rest[0].0).order == kept + rest[1..]
    ensures DistinctKeys(DiscardSandbox(p, rest[0].0).order)
    ensures SameStates(p, DiscardSandbox(p, rest[0].0))
  {
    assert p.order == kept + [rest[0]] + rest[1..];
    assert p.order[|kept|] == rest[0];
    GetIsMembership(p.order, rest[0].0, rest[0].1);
    DeleteMiddle(kept, rest[0], rest[1..]);
  }

  /** One turn of the trimming loop. */
  lemma {:induction false} TrimFromStep<S, I>(p: Plane<S, I>, rest: seq<(string, S)>)
    requires rest != [] && |p.order| > MAX_SANDBOX_STATES && rest[0].1 in p.recs
    ensures TrimFrom(p, rest)
         == if p.recs[rest[0].1].pending == map[] then TrimFrom(DiscardSandbox(p, rest[0].0), rest[1..])
            else TrimFrom(p, rest[1..])
  {
  }

  lemma {:induction false} TrimFromSame<S, I>(p: Plane<S, I>, rest: seq<(string, S)>)
    ensures SameStates(p, TrimFrom(p, rest))
    decreases |rest|
  {
    if rest != [] {
      TrimFromSame(p, rest[1..]);
      TrimFromSame(DiscardSandbox(p, rest[0].0), rest[1..]);
    }
  }

  /** Trimming keeps what a sweep over the states without a pending issue would. */
  lemma {:induction false} TrimFromIsSweep<S, I>(p: Plane<S, I>, kept: seq<(string, S)>, rest: seq<(string, S)>)
    requires p.order == kept + rest && DistinctKeys(p.order)
    ensures TrimFrom(p, rest).order == kept + Sweep(rest, Unpending(p), Excess(p))
    decreases |rest|
  {
    if rest != [] && |p.order| > MAX_SANDBOX_STATES {
      hide DistinctKeys, Delete;
      if rest[0].1 in Unpending(p) {
        DiscardHead(p, kept, rest);
        var q := DiscardSandbox(p, rest[0].0);
        hide DiscardSandbox;
        assert Unpending(q) == Unpending(p);
        hide Unpending;
        TrimFromIsSweep(q, kept, rest[1..]);
      } else {
        assert p.order == (kept + [rest[0]]) + rest[1..];
        TrimFromIsSweep(p, kept + [rest[0]], rest[1..]);
        assert kept + Sweep(rest, Unpending(p), Excess(p))
            == kept + [rest[0]] + Sweep(rest[1..], Unpending(p), Excess(p));
      }
    }
  }

  lemma {:induction false} TrimKeeps<S, I>(p: Plane<S, I>)
    requires OrderOk(p) && SingleFlight(p)
    ensures Inv(TrimStates(p))
  {
    var r := TrimStates(p);
    TrimFromIsSweep(p, [], p.order);
    TrimFromSame(p, p.order);
    hide TrimFrom, DistinctKeys, Sweep, Swept, CountIn;
    assert [] + p.order == p.order;
    assert [] + Sweep(p.order, Unpending(p), Excess(p)) == Sweep(p.order, Unpending(p), Excess(p));
    SweepKeepsDistinct(p.order, Unpending(p), Excess(p));
    SweepMembers(p.order, Unpending(p), Excess(p));
    TrimBounds(p);
  }

  lemma {:induction false} TrimBounds<S, I>(p: Plane<S, I>)
    requires OrderOk(p)
    requires TrimStates(p).order == Sweep(p.order, Unpending(p), Excess(p))
    requires SameStates(p, TrimStates(p))
    ensures Bounded(TrimStates(p))
  {
    var r := TrimStates(p);
    hide TrimStates, DistinctKeys, Sweep, Swept, CountIn;
    SweepCounts(p.order, Unpending(p), Excess(p));
    SweepMembers(p.order, Unpending(p), Excess(p));
    if |r.order| > MAX_SANDBOX_STATES {
      CountZero(r.order, Unpending(p));
    }
  }

  // ----- Every step keeps the invariant --------------------------------------

  lemma {:induction false} DiscardSandboxKeeps<S, I>(p: Plane<S, I>, id: string)
    requires Inv(p)
    ensures Inv(DiscardSandbox(p, id))
    ensures id !in KeysOf(DiscardSandbox(p, id).order)
  {
    GetFinds(p.order, id);
    DeleteMembers(p.order, id);
    DeleteKeepsDistinct(p.order, id);
    DeleteShrinks(p.order, id);
  }

  lemma {:induction false} DiscardKeepsMembers<S, I>(p: Plane<S, I>, id: string)
    ensures forall q <- DiscardSandbox(p, id).order :: q in p.order
  {
    DeleteMembers(p.order, id);
  }

  lemma {:induction false} DeleteShrinks<S>(m: seq<(string, S)>, id: string)
    ensures |Delete(m, id)| <= |m|
  {
    if m != [] {
      DeleteShrinks(m[1..], id);
    }
  }

  lemma {:induction false} StateForKeeps<S, I>(p: Plane<S, I>, id: string, s: S)
    requires Inv(p) && (Get(p.order, id).None? ==> s !in p.recs)
    ensures Inv(StateFor(p, id, s))
  {
    GetFinds(p.order, id);
    match Get(p.order, id) {
      case None =>
        var q := p.(order := p.order + [(id, s)], recs := p.recs[s := StateRec([], map[], 0)]);
        AppendKeepsDistinct(p.order, (id, s));
        hide DistinctKeys, Get;
        assert SingleFlight(q) by {
          forall i <- q.issues | q.issues[i].phase != Settled ensures InSlot(q, i) {
            assert InSlot(p, i);
          }
          forall t <- q.recs, permission <- q.recs[t].pending ensures SlotOk(q, t, permission) {
            assert SlotOk(p, t, permission);
          }
        }
        TrimKeeps(q);
      case Some(found) =>
        DeleteMembers(p.order, id);
        DeleteKeepsDistinct(p.order, id);
        AppendKeepsDistinct(Delete(p.order, id), (id, found));
        DeleteOne(p.order, id, found);
        StateForMoves(p, id, s);
    }
  }

  lemma {:induction false} DeleteOne<S>(m: seq<(string, S)>, id: string, s: S)
    requires (id, s) in m
    ensures |Delete(m, id)| < |m|
  {
    if m[0].0 == id {
      DeleteShrinks(m[1..], id);
    } else {
      DeleteOne(m[1..], id, s);
    }
  }

  /** Moving a state to the end changes no record. */
  lemma {:induction false} StateForMoves<S, I>(p: Plane<S, I>, id: string, s: S)
    requires SingleFlight(p) && Get(p.order, id).Some?
    ensures SingleFlight(StateFor(p, id, s))
  {
  }

  /** Starting an issue takes a slot that was free. */
  lemma {:induction false} EnsureKeeps<S, I>(p: Plane<S, I>, s: S, permission: Permission, now: int, i: I)
    requires Inv(p) && s in p.recs && i !in p.issues
    ensures Inv(EnsureCredential(p, s, permission, now, i))
  {
    var q := EnsureCredential(p, s, permission, now, i);
    hide DistinctKeys, Fresh;
    if q != p {
      forall j <- q.issues | q.issues[j].phase != Settled ensures InSlot(q, j) {
        assert j in p.issues ==> InSlot(p, j);
      }
      forall t <- q.recs, r <- q.recs[t].pending ensures SlotOk(q, t, r) {
        assert r in p.recs[t].pending ==> SlotOk(p, t, r);
      }
    }
  }

  lemma {:induction false} StoreKeeps<S, I>(p: Plane<S, I>, i: I, bundle: Bundle)
    requires Inv(p) && i in p.issues && p.issues[i].phase == Running && p.issues[i].state in p.recs
    ensures Inv(StoreBundle(p, i, bundle))
  {
  }

  /** Clearing the slot of an unsettled issue leaves every other issue in its own. */
  lemma {:induction false} UnpendKeeps<S, I>(p: Plane<S, I>, i: I)
    requires OrderOk(p) && SingleFlight(p) && i in p.issues && p.issues[i].phase != Settled
    requires p.issues[i].state in p.recs
    ensures OrderOk(Unpend(p, i)) && SingleFlight(Unpend(p, i))
  {
  }

  lemma {:induction false} RetryAtKeeps<S, I>(p: Plane<S, I>, s: S, t: int)
    requires Inv(p) && s in p.recs
    ensures Inv(p.(recs := p.recs[s := p.recs[s].(retryAtMs := t)]))
  {
  }

  lemma {:induction false} StepKeepsInv<S, I>(p: Plane<S, I>, step: Step<S, I>)
    requires Inv(p) && Enabled(p, step)
    ensures Inv(Next(p, step))
  {
    match step
    case StateForStep(id, s) => StateForKeeps(p, id, s);
    case EnsureStep(s, permission, now, i) => EnsureKeeps(p, s, permission, now, i);
    case StoreStep(i, bundle) =>
      assert InSlot(p, i);
      StoreKeeps(p, i, bundle);
    case SettleStep(i) =>
      assert InSlot(p, i);
      UnpendKeeps(p, i);
      TrimKeeps(Unpend(p, i));
    case DiscardSandboxStep(id) => DiscardSandboxKeeps(p, id);
    case RetryAtStep(s, t) => RetryAtKeeps(p, s, t);
  }

  // ----- What the invariant buys ---------------------------------------------

  /** At most one issue is in flight per state and permission. */
  lemma {:induction false} OneIssueInFlight<S, I>(p: Plane<S, I>, i: I, j: I)
    requires Inv(p) && i in p.issues && j in p.issues
    requires p.issues[i].phase != Settled && p.issues[j].phase != Settled
    requires p.issues[i].state == p.issues[j].state && p.issues[i].permission == p.issues[j].permission
    ensures i == j
  {
  }

  /** The cleanup of one issue deletes its own slot and leaves every other issue in flight in place. */
  lemma {:induction false} CleanupIsOwn<S, I>(p: Plane<S, I>, i: I, j: I)
    requires Inv(p) && Enabled(p, SettleStep(i))
    requires j in p.issues && p.issues[j].phase != Settled && j != i
    ensures p.issues[i].state in p.recs
    ensures var slots := p.recs[p.issues[i].state].pending;
      p.issues[i].permission in slots && slots[p.issues[i].permission] == i
    ensures j in SettleIssue(p, i).issues && InSlot(SettleIssue(p, i), j)
  {
    assert InSlot(p, i) && InSlot(p, j);
    TrimFromSame(Unpend(p, i), Unpend(p, i).order);
  }

  // ----- The cache and the pool together -------------------------------------

  /** The cache with the channel pool it retires channels from. */
  datatype System<S, I, E, L> = System(plane: Plane<S, I>, pool: P.Pool<E, L>)

  datatype SystemStep<S, I, E, L> = CacheStep(step: Step<S, I>) | PoolStep(pstep: P.Step<E, L>)

  ghost function NewlyRetired<S, I>(p: Plane<S, I>, q: Plane<S, I>): seq<string> {
    if |p.retired| <= |q.retired| then q.retired[|p.retired|..] else []
  }

  ghost predicate SystemInv<S, I, E, L>(y: System<S, I, E, L>, maxIdle: nat) {
    Inv(y.plane) && P.Inv(y.pool, maxIdle)
  }

  ghost predicate SystemEnabled<S, I, E, L>(y: System<S, I, E, L>, step: SystemStep<S, I, E, L>) {
    match step
    case CacheStep(s) => Enabled(y.plane, s)
    case PoolStep(s) => P.Enabled(y.pool, s)
  }

  ghost function SystemNext<S, I, E, L>(
      y: System<S, I, E, L>, step: SystemStep<S, I, E, L>, maxIdle: nat): System<S, I, E, L>
    requires SystemInv(y, maxIdle) && SystemEnabled(y, step)
  {
    match step
    case CacheStep(s) =>
      var plane := Next(y.plane, s);
      System(plane, P.DiscardKeys(y.pool, NewlyRetired(y.plane, plane)))
    case PoolStep(s) => y.(pool := P.Next(y.pool, s, maxIdle))
  }

  lemma {:induction false} SystemStepKeepsInv<S, I, E, L>(
      y: System<S, I, E, L>, step: SystemStep<S, I, E, L>, maxIdle: nat)
    requires SystemInv(y, maxIdle) && SystemEnabled(y, step)
    ensures SystemInv(SystemNext(y, step, maxIdle), maxIdle)
    ensures forall q <- SystemNext(y, step, maxIdle).pool.order ::
      q.0 !in NewlyRetired(y.plane, SystemNext(y, step, maxIdle).plane)
  {
    match step {
      case CacheStep(s) =>
        StepKeepsInv(y.plane, s);
        P.DiscardKeysRetires(y.pool, NewlyRetired(y.plane, Next(y.plane, s)), maxIdle);
      case PoolStep(s) =>
        P.StepKeepsInv(y.pool, s, maxIdle);
    }
  }

  /**
   Over every interleaving of cache and pool steps both invariants hold at every
   step boundary. The run is `None` only when a step names an object that does not
   exist or settles an issue twice.
   */
  ghost function Run<S, I, E, L>(
      y: System<S, I, E, L>, steps: seq<SystemStep<S, I, E, L>>, maxIdle: nat): (r: Option<System<S, I, E, L>>)
    requires SystemInv(y, maxIdle)
    ensures r.Some? ==> SystemInv(r.value, maxIdle)
    decreases |steps|
  {
    if steps == [] then Some(y)
    else if !SystemEnabled(y, steps[0]) then None
    else
      SystemStepKeepsInv(y, steps[0], maxIdle);
      Run(SystemNext(y, steps[0], maxIdle), steps[1..], maxIdle)
  }

  ghost function Empty<S, I, E, L>(): System<S, I, E, L> {
    System(Plane([], map[], map[], []), P.Empty())
  }

  lemma {:induction false} EmptyIsSound<S, I, E, L>(maxIdle: nat)
    ensures SystemInv(Empty<S, I, E, L>(), maxIdle)
  {
  }

  ghost function RunFromEmpty<S, I, E, L>(steps: seq<SystemStep<S, I, E, L>>, maxIdle: nat)
    : Option<System<S, I, E, L>>
  {
    EmptyIsSound<S, I, E, L>(maxIdle);
    Run(Empty(), steps, maxIdle)
  }

  /** Two issues in flight for one permission of one state. */
  ghost predicate Rivals<S, I>(p: Plane<S, I>, i: I, j: I) {
    && i in p.issues && j in p.issues && i != j
    && p.issues[i].phase != Settled && p.issues[j].phase != Settled
    && p.issues[i].state == p.issues[j].state && p.issues[i].permission == p.issues[j].permission
  }

  /** After every interleaving that starts empty: the bound on states, and single flight. */
  lemma {:induction false} EveryRunIsBounded<S, I, E, L>(
      steps: seq<SystemStep<S, I, E, L>>, maxIdle: nat, i: I, j: I)
    requires RunFromEmpty(steps, maxIdle).Some?
    ensures var p := RunFromEmpty(steps, maxIdle).value.plane;
      && !Rivals(p, i, j)
      && (|p.order| <= MAX_SANDBOX_STATES || forall q <- p.order :: q.1 in p.recs && p.recs[q.1].pending != map[])
  {
  }
}
