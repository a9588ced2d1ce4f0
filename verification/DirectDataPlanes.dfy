/**
 `DirectDataPlane`'s credential cache over heap objects (direct-data-plane.ts).
 Every method takes the step of CredentialCache it is named after and drives the
 shared channel pool through exactly the keys that step retires. The certificate
 request itself is a parameter: an issue is started here, and the caller reports
 that it stored a bundle or settled.
 */
module DirectDataPlanes {
  import opened Wrappers
  import opened OrderedMap
  import opened DirectChannels
  import C = CredentialCache
  import D = DetachedStates
  import P = ChannelPool

  class SandboxState {
    var credentials: seq<(C.Permission, C.Bundle)>
    var pending: map<C.Permission, CredentialIssue>
    var retryAtMs: int

    constructor ()
      ensures Rec() == C.StateRec([], map[], 0)
    {
      credentials, pending, retryAtMs := [], map[], 0;
    }

    ghost function Rec(): C.StateRec<CredentialIssue>
      reads this
    {
      C.StateRec(credentials, pending, retryAtMs)
    }
  }

  /** The promise of one `issueCredential` call. */
  class CredentialIssue {
    const state: SandboxState
    const permission: C.Permission
    ghost var phase: C.Phase

    constructor (state: SandboxState, permission: C.Permission)
      ensures this.state == state && this.permission == permission && phase == C.Running
    {
      this.state, this.permission, phase := state, permission, C.Running;
    }

    ghost function Rec(): C.IssueRec<SandboxState>
      reads this
    {
      C.IssueRec(state, permission, phase)
    }
  }

  class DirectDataPlane {
    const pool: DirectChannelPool
    var states: seq<(string, SandboxState)>
    ghost var allStates: set<SandboxState>
    ghost var issues: set<CredentialIssue>
    ghost var retired: seq<string>

    ghost function State(): C.Plane<SandboxState, CredentialIssue>
      reads this, allStates, issues
    {
      C.Plane(states, map s | s in allStates :: s.Rec(), map i | i in issues :: i.Rec(), retired)
    }

    constructor (pool: DirectChannelPool)
      ensures this.pool == pool
      ensures State() == C.Plane([], map[], map[], []) && C.Inv(State())
    {
      this.pool := pool;
      states, allStates, issues, retired := [], {}, {}, [];
    }

    twostate lemma RecsAfter(new s: SandboxState)
      requires allStates == old(allStates) + {s}
      requires forall x <- old(allStates) :: x == s || unchanged(x)
      ensures State().recs == old(State().recs)[s := s.Rec()]
    {
    }

    twostate lemma RecsSame()
      requires allStates == old(allStates) && unchanged(old(allStates))
      ensures State().recs == old(State().recs)
    {
    }

    twostate lemma IssuesAfter(new i: CredentialIssue)
      requires issues == old(issues) + {i}
      requires forall x <- old(issues) :: x == i || unchanged(x)
      ensures State().issues == old(State().issues)[i := i.Rec()]
    {
    }

    twostate lemma IssuesSame()
      requires issues == old(issues) && unchanged(old(issues))
      ensures State().issues == old(State().issues)
    {
    }

    /** The pool saw exactly the keys retired since the earlier state. */
    twostate predicate PoolFollows()
      reads this, pool, pool.created, pool.leases
    {
      && old(retired) <= retired
      && pool.State() == P.DiscardKeys(old(pool.State()), retired[|old(retired)|..])
    }

    twostate lemma FollowsBy(keys: seq<string>)
      requires retired == old(retired) + keys && pool.State() == P.DiscardKeys(old(pool.State()), keys)
      ensures PoolFollows()
    {
      assert retired[|old(retired)|..] == keys;
    }

    method Retire(keys: seq<string>)
      requires pool.Valid()
      modifies this`retired, pool`entries, pool.created
      ensures pool.Valid() && pool.State() == P.DiscardKeys(old(pool.State()), keys)
      ensures State() == old(State()).(retired := old(retired) + keys)
    {
      var i := 0;
      assert keys[0..] == keys;
      while i < |keys|
        invariant 0 <= i <= |keys|
        invariant pool.Valid() && retired == old(retired)
        invariant P.DiscardKeys(pool.State(), keys[i..]) == P.DiscardKeys(old(pool.State()), keys)
      {
        assert keys[i..][0] == keys[i] && keys[i..][1..] == keys[i + 1..];
        pool.Discard(keys[i]);
        i := i + 1;
      }
      retired := retired + keys;
      RecsSame();
      IssuesSame();
    }

    method DiscardSandbox(id: string)
      requires pool.Valid()
      requires Knows(states)
      modifies this`states, this`retired, pool`entries, pool.created
      ensures pool.Valid() && PoolFollows()
      ensures State() == C.DiscardSandbox(old(State()), id)
    {
      var state := Get(states, id);
      GetFinds(states, id);
      P.DiscardNoKeys(pool.State());
      assert retired[|retired|..] == [];
      hide Get, Delete, P.Inv, P.DiscardKeys;
      if state.Some? {
        var keys := C.CacheKeys(state.value.credentials);
        ghost var was := State();
        assert C.DiscardSandbox(was, id) == was.(order := Delete(was.order, id), retired := was.retired + keys);
        hide Knows, C.CacheKeys, C.DiscardSandbox, PoolFollows;
        RemoveState(id);
        Retire(keys);
        FollowsBy(keys);
      }
    }

    method RemoveState(id: string)
      modifies this`states
      ensures State() == old(State()).(order := Delete(old(states), id))
    {
      states := Delete(states, id);
      RecsSame();
      IssuesSame();
    }

    /** Two spells of retiring, one after the other. */
    lemma FollowOn(pool0: P.Pool<PoolEntry, Lease>, r0: seq<string>, r1: seq<string>, r2: seq<string>)
      requires r0 <= r1 <= r2
      ensures P.DiscardKeys(P.DiscardKeys(pool0, r1[|r0|..]), r2[|r1|..]) == P.DiscardKeys(pool0, r2[|r0|..])
    {
      assert r2[|r0|..] == r1[|r0|..] + r2[|r1|..];
      P.DiscardKeysAppend(pool0, r1[|r0|..], r2[|r1|..]);
    }

    ghost predicate Knows(order: seq<(string, SandboxState)>)
      reads this`allStates
    {
      forall q <- order :: q.1 in allStates
    }

    /** Between two turns of the trimming loop: the pool has seen exactly the keys retired since it began. */
    ghost predicate Trimming(pool0: P.Pool<PoolEntry, Lease>, r0: seq<string>)
      reads this, pool, pool.created, pool.leases
    {
      && pool.Valid()
      && r0 <= retired && pool.State() == P.DiscardKeys(pool0, retired[|r0|..])
      && Knows(states)
    }

    method TrimStates()
      requires pool.Valid()
      requires Knows(states)
      modifies this`states, this`retired, pool`entries, pool.created
      ensures pool.Valid() && PoolFollows()
      ensures State() == C.TrimStates(old(State()))
    {
      assert retired[|retired|..] == [];
      P.DiscardNoKeys(pool.State());
      ghost var goal := C.TrimStates(State());
      assert states[0..] == states && ToTrim(states, 0, goal);
      hide C.TrimFrom, P.DiscardKeys, P.Inv;
      TrimLoop(states, pool.State(), retired, goal);
    }

    /** The trimming loop, over the states there were when it began. */
    method TrimLoop(snapshot: seq<(string, SandboxState)>, ghost pool0: P.Pool<PoolEntry, Lease>, ghost r0: seq<string>,
                    ghost goal: C.Plane<SandboxState, CredentialIssue>)
      requires Trimming(pool0, r0) && Knows(snapshot) && ToTrim(snapshot, 0, goal)
      modifies this`states, this`retired, pool`entries, pool.created
      ensures Trimming(pool0, r0) && State() == goal
    {
      var i := 0;
      hide Trimming, State, Knows, ToTrim;
      while i < |snapshot| && |states| > C.MAX_SANDBOX_STATES
        invariant 0 <= i <= |snapshot|
        invariant Trimming(pool0, r0) && ToTrim(snapshot, i, goal)
      {
        Visit(snapshot, i, pool0, r0, goal);
        i := i + 1;
      }
      TrimmingEnds(snapshot, i, goal);
    }

    /** What is left of the trimming, from the i-th pair on, comes to the goal. */
    ghost predicate ToTrim(snapshot: seq<(string, SandboxState)>, i: nat, goal: C.Plane<SandboxState, CredentialIssue>)
      requires i <= |snapshot|
      reads this, allStates, issues
    {
      C.TrimFrom(State(), snapshot[i..]) == goal
    }

    lemma TrimmingEnds(snapshot: seq<(string, SandboxState)>, i: nat,
                       goal: C.Plane<SandboxState, CredentialIssue>)
      requires i <= |snapshot| && (i == |snapshot| || |states| <= C.MAX_SANDBOX_STATES)
      requires ToTrim(snapshot, i, goal)
      ensures State() == goal
    {
    }

    /** One turn of the trimming loop. */
    method Visit(snapshot: seq<(string, SandboxState)>, i: nat, ghost pool0: P.Pool<PoolEntry, Lease>,
                 ghost r0: seq<string>, ghost goal: C.Plane<SandboxState, CredentialIssue>)
      requires Trimming(pool0, r0) && i < |snapshot| && ToTrim(snapshot, i, goal)
      requires Knows(snapshot) && |states| > C.MAX_SANDBOX_STATES
      modifies this`states, this`retired, pool`entries, pool.created
      ensures Trimming(pool0, r0) && ToTrim(snapshot, i + 1, goal)
    {
      var q, rest := snapshot[i], snapshot[i + 1..];
      assert snapshot[i..] == [q] + rest;
      assert ([q] + rest)[1..] == rest;
      C.TrimFromStep(State(), [q] + rest);
      C.DiscardKeepsMembers(State(), q.0);
      hide C.DiscardSandbox, C.TrimFrom, P.DiscardKeys, P.Inv;
      if q.1.pending == map[] {
        ghost var r1 := retired;
        DiscardSandbox(q.0);
        FollowOn(pool0, r0, r1, retired);
      }
    }

    method StateFor(id: string) returns (s: SandboxState)
      requires pool.Valid() && C.Inv(State())
      modifies this`states, this`allStates, this`retired, pool`entries, pool.created
      ensures pool.Valid() && PoolFollows()
      ensures s in allStates && (Get(old(states), id).None? ==> fresh(s))
      ensures State() == C.StateFor(old(State()), id, s) && C.Inv(State())
      ensures (id, s) in states <==> D.WillKeep(old(State()), id)
    {
      ghost var was := State();
      var found := Get(states, id);
      GetFinds(states, id);
      if found.Some? {
        s := found.value;
        C.StateForKeeps(was, id, s);
        MoveState(id, s);
      } else {
        s := AddAndTrim(id);
        C.StateForKeeps(was, id, s);
      }
      D.StateIsKeptIff(was, id, s);
      hide C.StateFor, C.Inv, D.WillKeep, Get;
    }

    method AddAndTrim(id: string) returns (s: SandboxState)
      requires pool.Valid() && Get(states, id).None?
      requires Knows(states)
      modifies this`states, this`allStates, this`retired, pool`entries, pool.created
      ensures pool.Valid() && PoolFollows()
      ensures fresh(s) && s in allStates
      ensures State() == C.StateFor(old(State()), id, s)
    {
      hide C.TrimStates, Get, P.DiscardKeys, P.Inv, C.TrimFrom;
      s := AddState(id);
      TrimStates();
    }

    method AddState(id: string) returns (s: SandboxState)
      requires Knows(states)
      modifies this`states, this`allStates
      ensures fresh(s) && allStates == old(allStates) + {s}
      ensures Knows(states)
      ensures State() == old(State()).(order := old(states) + [(id, s)],
                                       recs := old(State()).recs[s := C.StateRec([], map[], 0)])
    {
      s := new SandboxState();
      states := states + [(id, s)];
      allStates := allStates + {s};
      RecsAfter(s);
      IssuesSame();
    }

    method MoveState(id: string, s: SandboxState)
      modifies this`states
      ensures State() == old(State()).(order := MoveToEnd(old(states), id, s))
    {
      states := Delete(states, id) + [(id, s)];
      RecsSame();
      IssuesSame();
    }

    /** The cached bundle, or the promise to wait for: one already pending or a new one. */
    method EnsureCredential(s: SandboxState, permission: C.Permission, now: int)
      returns (bundle: Option<C.Bundle>, issue: Option<CredentialIssue>)
      requires C.Inv(State()) && s in allStates
      modifies this`issues, s`pending
      ensures C.Inv(State())
      ensures bundle.Some? <==> issue.None?
      ensures var cached := Get(old(s.credentials), permission);
        bundle == if cached.Some? && cached.value.expiresAtMs > now + 30_000 then cached else None
      ensures bundle.Some? ==> State() == old(State())
      ensures issue.Some? ==> (fresh(issue.value) <==> permission !in old(s.pending))
      ensures issue.Some? && permission in old(s.pending) ==> issue.value == old(s.pending)[permission]
      ensures issue.Some? ==>
        && issue.value in issues && issue.value.Rec() in {
             C.IssueRec(s, permission, C.Running), C.IssueRec(s, permission, C.Stored)}
        && (fresh(issue.value) || State() == old(State()))
        && State() == C.EnsureCredential(old(State()), s, permission, now, issue.value)
    {
      ghost var was := State();
      assert s in was.recs && was.recs[s] == s.Rec();
      var cached := Get(s.credentials, permission);
      if cached.Some? && cached.value.expiresAtMs > now + C.EXPIRY_SKEW_MS {
        return cached, None;
      }
      if permission in s.pending {
        assert C.SlotOk(was, s, permission);
        return None, Some(s.pending[permission]);
      }
      var i := StartIssue(s, permission);
      C.EnsureKeeps(was, s, permission, now, i);
      return None, Some(i);
    }

    method StartIssue(s: SandboxState, permission: C.Permission) returns (i: CredentialIssue)
      requires s in allStates
      modifies this`issues, s`pending
      ensures fresh(i) && i in issues && i.Rec() == C.IssueRec(s, permission, C.Running)
      ensures State() == old(State()).(
        recs := old(State()).recs[s := old(s.Rec()).(pending := old(s.pending)[permission := i])],
        issues := old(State()).issues[i := C.IssueRec(s, permission, C.Running)])
    {
      i := new CredentialIssue(s, permission);
      issues := issues + {i};
      s.pending := s.pending[permission := i];
      RecsAfter(s);
      IssuesAfter(i);
    }

    /** The `then` of an issue that succeeded. */
    method StoreBundle(i: CredentialIssue, bundle: C.Bundle)
      requires pool.Valid() && C.Inv(State()) && i in issues && i.phase == C.Running
      modifies this`retired, i.state`credentials, i`phase, pool`entries, pool.created
      ensures pool.Valid() && PoolFollows() && C.Inv(State())
      ensures i in old(State()).issues && i.state in old(State()).recs
      ensures State() == C.StoreBundle(old(State()), i, bundle)
    {
      ghost var was := State();
      assert C.InSlot(was, i) && was.issues[i] == i.Rec() && was.recs[i.state] == i.state.Rec();
      C.StoreKeeps(was, i, bundle);
      StoreAndRetire(i, bundle);
    }

    method StoreAndRetire(i: CredentialIssue, bundle: C.Bundle)
      requires pool.Valid() && i in issues && i.state in allStates
      modifies this`retired, i.state`credentials, i`phase, pool`entries, pool.created
      ensures pool.Valid() && PoolFollows()
      ensures State() == C.StoreBundle(old(State()), i, bundle)
    {
      hide Get, C.Put, P.Inv, P.DiscardKeys;
      var replaced := Get(i.state.credentials, i.permission);
      SetBundle(i, bundle);
      var rotated := replaced.Some? && replaced.value.cacheKey != bundle.cacheKey;
      var keys := if rotated then [replaced.value.cacheKey] else [];
      Retire(keys);
      FollowsBy(keys);
    }

    method SetBundle(i: CredentialIssue, bundle: C.Bundle)
      requires i in issues && i.state in allStates
      modifies i.state`credentials, i`phase
      ensures State() == old(State()).(
        recs := old(State()).recs[i.state := old(i.state.Rec()).(
          credentials := C.Put(old(i.state.credentials), i.permission, bundle))],
        issues := old(State()).issues[i := old(i.Rec()).(phase := C.Stored)])
    {
      i.state.credentials := C.Put(i.state.credentials, i.permission, bundle);
      i.phase := C.Stored;
      RecsAfter(i.state);
      IssuesAfter(i);
    }

    /** The `finally` of an issue. */
    method SettleIssue(i: CredentialIssue)
      requires pool.Valid() && C.Inv(State()) && i in issues && i.phase != C.Settled
      modifies this`states, this`retired, i.state`pending, i`phase, pool`entries, pool.created
      ensures pool.Valid() && PoolFollows() && C.Inv(State())
      ensures i in old(State()).issues && i.state in old(State()).recs
      ensures State() == C.SettleIssue(old(State()), i)
    {
      ghost var was := State();
      assert C.InSlot(was, i) && was.issues[i] == i.Rec() && was.recs[i.state] == i.state.Rec();
      C.StepKeepsInv(was, C.SettleStep(i));
      ClearAndTrim(i);
    }

    method ClearAndTrim(i: CredentialIssue)
      requires pool.Valid() && i in issues && i.state in allStates
      requires Knows(states)
      modifies this`states, this`retired, i.state`pending, i`phase, pool`entries, pool.created
      ensures pool.Valid() && PoolFollows()
      ensures State() == C.SettleIssue(old(State()), i)
    {
      hide C.TrimStates, P.Inv, P.DiscardKeys;
      ClearSlot(i);
      TrimStates();
    }

    method ClearSlot(i: CredentialIssue)
      requires i in issues && i.state in allStates
      modifies i.state`pending, i`phase
      ensures State() == old(State()).(
        recs := old(State()).recs[i.state := old(i.state.Rec()).(
          pending := old(i.state.pending) - {i.permission})],
        issues := old(State()).issues[i := old(i.Rec()).(phase := C.Settled)])
    {
      i.state.pending := i.state.pending - {i.permission};
      i.phase := C.Settled;
      RecsAfter(i.state);
      IssuesAfter(i);
    }
  }
}
