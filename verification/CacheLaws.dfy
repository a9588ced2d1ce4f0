/** What the steps of the credential cache come to for their callers (direct-data-plane.ts). */
module CacheLaws {
  import opened Wrappers
  import opened OrderedMap
  import opened CredentialCache

  /** A bundle that stays good for more than half a minute. */
  ghost predicate Usable(credentials: seq<(Permission, Bundle)>, permission: Permission, now: int) {
    && Get(credentials, permission).Some?
    && Get(credentials, permission).value.expiresAtMs > now + 30_000
  }

  /**
   A new issue is started exactly when there is neither a usable bundle nor an issue pending;
   it takes the permission's slot, and otherwise nothing changes.
   */
  lemma {:induction false} IssuesOnlyWhenNeeded<S, I>(p: Plane<S, I>, s: S, permission: Permission, now: int, i: I)
    requires Inv(p) && Enabled(p, EnsureStep(s, permission, now, i))
    ensures var q, rec := Next(p, EnsureStep(s, permission, now, i)), p.recs[s];
      && (i in q.issues <==> !Usable(rec.credentials, permission, now) && permission !in rec.pending)
      && (i !in q.issues ==> q == p)
      && (i in q.issues ==>
        && q.issues == p.issues[i := IssueRec(s, permission, Running)]
        && q.recs == p.recs[s := rec.(pending := rec.pending[permission := i])]
        && q.order == p.order && q.retired == p.retired)
  {
    hide Get;
  }

  /** A credential map holds what was stored last under each permission. */
  lemma {:induction false} GetAfterPut(credentials: seq<(Permission, Bundle)>, permission: Permission, bundle: Bundle,
                                       other: Permission)
    ensures Get(Put(credentials, permission, bundle), other)
         == if other == permission then Some(bundle) else Get(credentials, other)
  {
    var after := Put(credentials, permission, bundle);
    if credentials == [] {
      assert after[1..] == [];
    } else if credentials[0].0 == permission {
      assert after[1..] == credentials[1..];
    } else {
      GetAfterPut(credentials[1..], permission, bundle, other);
      assert after[1..] == Put(credentials[1..], permission, bundle);
    }
  }

  /** An issue that succeeds stores its bundle for its permission, and retires just the key it replaces. */
  lemma {:induction false} StoreKeepsTheRest<S, I>(p: Plane<S, I>, i: I, bundle: Bundle, other: Permission)
    requires Inv(p) && Enabled(p, StoreStep(i, bundle))
    ensures var issue := p.issues[i];
      && issue.state in p.recs
      && var q, before := Next(p, StoreStep(i, bundle)), p.recs[issue.state].credentials;
         && issue.state in q.recs && q.order == p.order
         && Get(q.recs[issue.state].credentials, other)
            == (if other == issue.permission then Some(bundle) else Get(before, other))
         && (forall s <- p.recs :: s != issue.state ==> s in q.recs && q.recs[s] == p.recs[s])
         && q.recs[issue.state].pending == p.recs[issue.state].pending
         && q.retired == p.retired +
              match Get(before, issue.permission)
              case None => []
              case Some(was) => if was.cacheKey == bundle.cacheKey then [] else [was.cacheKey]
  {
    assert InSlot(p, i);
    GetAfterPut(p.recs[p.issues[i].state].credentials, p.issues[i].permission, bundle, other);
    hide Get, Put;
  }

  /** The keys a state retires are those of its bundles. */
  lemma {:induction false} CacheKeysAre(credentials: seq<(Permission, Bundle)>, key: string)
    ensures key in CacheKeys(credentials) <==> exists c <- credentials :: c.1.cacheKey == key
  {
    if credentials != [] {
      CacheKeysAre(credentials[1..], key);
    }
  }

  /** `stateFor` a known sandbox returns its state and makes it the latest of the map; nothing else changes. */
  lemma {:induction false} KnownStateIsMadeLatest<S, I>(p: Plane<S, I>, id: string, s: S, found: S)
    requires Inv(p) && Get(p.order, id) == Some(found)
    ensures var q := Next(p, StateForStep(id, s));
      && q.order != [] && q.order[|q.order| - 1] == (id, found) && |q.order| == |p.order|
      && (forall x <- p.order :: x in q.order)
      && q.recs == p.recs && q.issues == p.issues && q.retired == p.retired
  {
    GetFinds(p.order, id);
    DeleteMembers(p.order, id);
    OneGone(p.order, id, found);
    var q := Next(p, StateForStep(id, s));
    forall x <- p.order ensures x in q.order {
      if x.0 == id {
        KeyDecides(p.order, x, (id, found));
      }
    }
  }

  lemma {:induction false} OneGone<S>(m: seq<(string, S)>, id: string, s: S)
    requires DistinctKeys(m) && (id, s) in m
    ensures |Delete(m, id)| == |m| - 1
  {
    if m[0].0 == id {
      DeleteAbsent(m[1..], id);
    } else {
      OneGone(m[1..], id, s);
    }
  }

  /** A sandbox that is not known gets a new state, without credentials; with room, it is the latest of the map. */
  lemma {:induction false} NewStateIsAdded<S, I>(p: Plane<S, I>, id: string, s: S)
    requires Inv(p) && Enabled(p, StateForStep(id, s)) && id !in KeysOf(p.order)
    ensures var q := Next(p, StateForStep(id, s));
      && q.recs == p.recs[s := StateRec([], map[], 0)] && q.issues == p.issues
      && (|p.order| < 2_048 ==> q.order == p.order + [(id, s)] && q.retired == p.retired)
  {
    GetFinds(p.order, id);
    var a := p.(order := p.order + [(id, s)], recs := p.recs[s := StateRec([], map[], 0)]);
    TrimFromSame(a, a.order);
    hide Get;
  }

  /** An issue that has settled leaves its slot free, so that the next request starts another. */
  lemma {:induction false} SettlingFreesTheSlot<S, I>(p: Plane<S, I>, i: I)
    requires Inv(p) && Enabled(p, SettleStep(i))
    ensures var issue := p.issues[i];
      && issue.state in p.recs
      && var q, rec := Next(p, SettleStep(i)), p.recs[issue.state];
         && i in q.issues && q.issues[i].phase == Settled
         && issue.state in q.recs
         && q.recs[issue.state] == rec.(pending := rec.pending - {issue.permission})
         && (forall s <- p.recs :: s != issue.state ==> s in q.recs && q.recs[s] == p.recs[s])
  {
    assert InSlot(p, i);
    TrimFromSame(Unpend(p, i), Unpend(p, i).order);
    hide TrimFrom;
  }

  /** Discarding a sandbox takes its state, and no other, out of the map. */
  lemma {:induction false} DiscardTakesOneOut<S, I>(p: Plane<S, I>, id: string)
    requires Inv(p)
    ensures var q := Next(p, DiscardSandboxStep(id));
      && id !in KeysOf(q.order) && q.recs == p.recs && q.issues == p.issues
      && (forall x <- q.order :: x in p.order)
      && (forall x <- p.order :: x.0 != id ==> x in q.order)
  {
    DiscardSandboxKeeps(p, id);
    DeleteMembers(p.order, id);
    hide Delete, CacheKeys;
  }
}
