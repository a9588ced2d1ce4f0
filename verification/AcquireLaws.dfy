/** When a direct call tries again, how it ends, and what cooldown it leaves, in milliseconds (direct-data-plane.ts). */
module AcquireLaws {
  import opened Reals
  import opened Wrappers
  import opened DirectAcquire

  /** The pauses between tries. */
  function PauseAfter(k: nat): real {
    if k == 0 then 200.0 else if k == 1 then 400.0 else if k == 2 then 800.0 else 1_000.0
  }

  lemma {:induction false} DelaysAre(k: nat)
    ensures DelayMs(k) == PauseAfter(k)
  {
    assert DelayMs(1) == 400.0 && DelayMs(2) == 800.0;
    if k >= 3 {
      PausesAddUp(k);
    }
  }

  /** The errors that mean a direct channel cannot be had for now. */
  predicate NoDirectChannel(e: Error) {
    match e
    case DirectUnavailable => true
    case PermissionUnavailable => false
    case Rpc(code) =>
      code in {UnavailableCode, DeadlineExceeded, FailedPrecondition, ResourceExhausted, Unimplemented}
    case Other(_) => false
  }

  lemma {:induction false} FallsBackIff(e: Error)
    ensures IsFallback(e) <==> NoDirectChannel(e)
  {
  }

  /** Direct mode has ten seconds and auto mode one, or what the caller gives it if that is less. */
  lemma {:induction false} BudgetIs(mode: Mode, timeoutMs: Option<real>)
    ensures var most := if mode == DirectMode then 10_000.0 else 1_000.0;
      BudgetMs(mode, timeoutMs) == if timeoutMs.Some? && timeoutMs.value <= most then timeoutMs.value else most
  {
  }

  /** A try in direct mode that found the runner unavailable, with time for the pause after it. */
  predicate HasAnotherTry(mode: Mode, rec: TryRec, k: nat, deadlineMs: real) {
    && mode == DirectMode && rec.outcome == Failed(Rpc(UnavailableCode))
    && rec.end + PauseAfter(k) < deadlineMs
  }

  lemma {:induction false} AnotherTryIff(mode: Mode, rec: TryRec, k: nat, deadlineMs: real)
    ensures TriesAgain(mode, rec.outcome, k, rec.end, deadlineMs) <==> HasAnotherTry(mode, rec, k, deadlineMs)
  {
    DelaysAre(k);
    hide DelayMs, PauseAfter;
  }

  /**
   A try is followed by another exactly when it has one coming, after exactly the pause that is
   its turn; a last try that has one coming was stopped by the signal, during that pause.
   */
  lemma {:induction false} TriesFollow(
      d: Dialer, recs: seq<TryRec>, from: nat, start: real, mode: Mode, deadlineMs: real, r: Outcome, now: real,
      retryAtMs: real, retryAtMs': real)
    requires d.Answered(recs, from, start, mode, deadlineMs)
    requires d.EndsOn(recs, mode, deadlineMs, r, now, retryAtMs, retryAtMs')
    ensures recs[0].start == start
    ensures forall i | 0 <= i < |recs| - 1 :: Follows(recs, i, mode, deadlineMs)
    ensures var n := |recs| - 1;
      HasAnotherTry(mode, recs[n], n, deadlineMs) ==>
        && d.abortAt.Some? && r == Failed(d.reason) && d.abortAt.value <= recs[n].end + PauseAfter(n)
        && now == Max(recs[n].end, d.abortAt.value) && retryAtMs' == retryAtMs
  {
    var n := |recs| - 1;
    AnotherTryIff(mode, recs[n], n, deadlineMs);
    DelaysAre(n);
    assert d.TryAt(recs, 0, from, start, mode, deadlineMs);
    forall i | 0 <= i < n ensures Follows(recs, i, mode, deadlineMs) {
      AnotherTryIff(mode, recs[i], i, deadlineMs);
      DelaysAre(i);
      assert d.TryAt(recs, i, from, start, mode, deadlineMs);
      assert d.TryAt(recs, i + 1, from, start, mode, deadlineMs);
    }
    hide HasAnotherTry, PauseAfter, DelayMs;
  }

  ghost predicate Follows(recs: seq<TryRec>, i: nat, mode: Mode, deadlineMs: real)
    requires i < |recs| - 1
  {
    HasAnotherTry(mode, recs[i], i, deadlineMs) && recs[i + 1].start == recs[i].end + PauseAfter(i)
  }

  /**
   A last try with no other coming is the result: a lease, with the cooldown lifted; one error
   for all that mean no direct channel, with a cooldown of thirty seconds; any other as it is.
   */
  lemma {:induction false} LastTryIsTheResult(
      d: Dialer, recs: seq<TryRec>, mode: Mode, deadlineMs: real, r: Outcome, now: real, retryAtMs: real,
      retryAtMs': real)
    requires recs != [] && d.EndsOn(recs, mode, deadlineMs, r, now, retryAtMs, retryAtMs')
    requires !HasAnotherTry(mode, recs[|recs| - 1], |recs| - 1, deadlineMs)
    ensures now == recs[|recs| - 1].end
    ensures match recs[|recs| - 1].outcome
      case Leased => r == Leased && retryAtMs' == 0.0
      case Failed(e) =>
        if NoDirectChannel(e) then r == Failed(DirectUnavailable) && retryAtMs' == now + 30_000.0
        else r == Failed(e) && retryAtMs' == retryAtMs
  {
    var last := recs[|recs| - 1];
    AnotherTryIff(mode, last, |recs| - 1, deadlineMs);
    if last.outcome.Failed? {
      FallsBackIff(last.outcome.error);
    }
    hide HasAnotherTry, DelayMs;
  }
}
