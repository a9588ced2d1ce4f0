/**
 Getting a direct lease within a budget (`acquireDirect` of direct-data-plane.ts): the
 retry loop around the credential and the connection, and the cooldown it leaves behind.
 What each try comes to, and how long it takes, is fixed in advance and otherwise
 arbitrary; ChannelPool and CredentialCache hold what a try does to the caches.
 */
module DirectAcquire {
  import opened Reals
  import opened Wrappers

  const AUTO_BUDGET_MS := 1_000.0
  const DIRECT_BUDGET_MS := 10_000.0
  const RETRY_COOLDOWN_MS := 30_000.0
  const STRICT_RETRY_START_MS := 200.0
  const STRICT_RETRY_MAX_MS := 1_000.0

  datatype Mode = AutoMode | DirectMode

  datatype Code =
    | UnavailableCode | DeadlineExceeded | FailedPrecondition | ResourceExhausted | Unimplemented | OtherCode

  datatype Error = DirectUnavailable | PermissionUnavailable | Rpc(code: Code) | Other(id: nat)

  /** A credential request: a bundle that grants the permission or not, or an error. */
  datatype Credential = Granted | NotGranted | Rejected(error: Error)

  datatype Outcome = Leased | Failed(error: Error)

  /** What setting up a channel comes to. */
  datatype Connection = NoChannel | NotReady | Ready

  /** How a wait ends: with its promise, at its deadline, or with the signal. */
  datatype Waiting = Done | TimedOut | Cut

  /** The wait ends with whichever of the three comes first. */
  ghost predicate FirstOf(start: real, tookMs: real, deadlineMs: real, abortAt: Option<real>, r: Waiting, end: real) {
    var done := start + NotNegative(tookMs);
    match r
    case Done => end == done && done < deadlineMs && (abortAt.Some? ==> done < abortAt.value)
    case TimedOut =>
      end == Max(start, deadlineMs) && deadlineMs <= done && (abortAt.Some? ==> end < abortAt.value)
    case Cut =>
      abortAt.Some? && end == Max(start, abortAt.value) && (end == start || end <= Min(done, deadlineMs))
  }

  /** One turn of the loop: the wait for the credential, then for the channel if it came to that. */
  datatype TryRec = TryRec(
    start: real, credential: Waiting, mid: real, channel: Option<Waiting>, end: real, outcome: Outcome)

  /** `isFallbackError`. */
  predicate IsFallback(e: Error) {
    e == DirectUnavailable || (e.Rpc? && e.code != OtherCode)
  }

  function BudgetMs(mode: Mode, timeoutMs: Option<real>): (b: real)
    ensures b <= DIRECT_BUDGET_MS
  {
    var modeBudget := if mode == DirectMode then DIRECT_BUDGET_MS else AUTO_BUDGET_MS;
    if timeoutMs.Some? then Min(timeoutMs.value, modeBudget) else modeBudget
  }

  /** The pause after the k-th try, and all the pauses before it. */
  function DelayMs(k: nat): (d: real)
    ensures STRICT_RETRY_START_MS <= d <= STRICT_RETRY_MAX_MS
  {
    if k == 0 then STRICT_RETRY_START_MS else Min(DelayMs(k - 1) * 2.0, STRICT_RETRY_MAX_MS)
  }

  function PausedMs(k: nat): real {
    if k == 0 then 0.0 else PausedMs(k - 1) + DelayMs(k - 1)
  }

  /** After three doublings every pause is a second. */
  lemma {:induction false} PausesAddUp(k: nat)
    requires k >= 3
    ensures DelayMs(k) == STRICT_RETRY_MAX_MS && PausedMs(k) == 1_400.0 + 1_000.0 * (k - 3) as real
  {
    if k == 3 {
      assert DelayMs(1) == 400.0 && DelayMs(2) == 800.0 && DelayMs(3) == 1_000.0;
      assert PausedMs(1) == 200.0 && PausedMs(2) == 600.0;
    } else {
      PausesAddUp(k - 1);
    }
  }

  lemma {:induction false} FewPauses(k: nat)
    requires PausedMs(k) < DIRECT_BUDGET_MS
    ensures k <= 11
  {
    if k >= 3 {
      PausesAddUp(k);
    }
  }

  /** Direct mode tries again after UNAVAILABLE when the next pause ends before the deadline. */
  predicate TriesAgain(mode: Mode, outcome: Outcome, k: nat, end: real, deadlineMs: real) {
    mode == DirectMode && outcome == Failed(Rpc(UnavailableCode)) && end + DelayMs(k) < deadlineMs
  }

  function Surfaced(outcome: Outcome): Outcome {
    if outcome.Failed? && IsFallback(outcome.error) then Failed(DirectUnavailable) else outcome
  }

  /** When the k-th try starts. */
  ghost function StartOf(recs: seq<TryRec>, start: real, k: nat): real
    requires k <= |recs|
  {
    if k == 0 then start else recs[k - 1].end + DelayMs(k - 1)
  }

  class Dialer {
    const credentials: nat -> Credential
    const credentialTimes: nat -> real
    const connections: nat -> Connection
    const connectTimes: nat -> real
    /** The signal: when it fires, if ever, and the reason it gives. */
    const abortAt: Option<real>
    const reason: Error
    var now: real
    var tries: nat
    /** The sandbox state's field of this name. */
    var retryAtMs: real

    constructor (credentials: nat -> Credential, credentialTimes: nat -> real, connections: nat -> Connection,
                 connectTimes: nat -> real, abortAt: Option<real>, reason: Error, now: real, retryAtMs: real)
      ensures this.now == now && this.retryAtMs == retryAtMs && tries == 0
    {
      this.credentials, this.credentialTimes := credentials, credentialTimes;
      this.connections, this.connectTimes := connections, connectTimes;
      this.abortAt, this.reason := abortAt, reason;
      this.now, this.retryAtMs, tries := now, retryAtMs, 0;
    }

    /** `within`: waits, but not past the deadline, nor past the signal. */
    method Within(tookMs: real, deadlineMs: real) returns (r: Waiting)
      modifies `now
      ensures FirstOf(old(now), tookMs, deadlineMs, abortAt, r, now)
      ensures old(now) <= now <= Max(old(now), deadlineMs)
    {
      if abortAt.Some? && abortAt.value <= now {
        return Cut;
      }
      var remaining := NotNegative(deadlineMs - now);
      if remaining <= 0.0 {
        return TimedOut;
      }
      r := if NotNegative(tookMs) < remaining then Done else TimedOut;
      var end := now + Min(NotNegative(tookMs), remaining);
      if abortAt.Some? && abortAt.value <= end {
        now := abortAt.value;
        return Cut;
      }
      now := end;
    }

    /** `delay`: the whole pause, or until the signal fires. */
    method Delay(delayMs: real) returns (cut: bool)
      requires delayMs >= 0.0
      modifies `now
      ensures old(now) <= now <= old(now) + delayMs
      ensures !cut ==> now == old(now) + delayMs && (abortAt.Some? ==> now < abortAt.value)
      ensures cut ==> abortAt.Some? && now == Max(old(now), abortAt.value)
    {
      if abortAt.Some? && abortAt.value <= now {
        return true;
      }
      if abortAt.Some? && abortAt.value <= now + delayMs {
        now := abortAt.value;
        return true;
      }
      now := now + delayMs;
      return false;
    }

    /** The k-th try came to this because of what was scripted for it. */
    ghost predicate TryOk(k: nat, deadlineMs: real, rec: TryRec) {
      && FirstOf(rec.start, credentialTimes(k), deadlineMs, abortAt, rec.credential, rec.mid)
      && match rec.channel
         case Some(wait) =>
           && rec.credential == Done && credentials(k) == Granted && connections(k) != NoChannel
           && FirstOf(rec.mid, connectTimes(k), deadlineMs, abortAt, wait, rec.end)
           && rec.outcome == (
                if wait == Cut then Failed(reason)
                else if wait == Done && connections(k) == Ready then Leased
                else Failed(DirectUnavailable))
         case None =>
           && rec.end == rec.mid
           && match rec.credential
              case Cut => rec.outcome == Failed(reason)
              case TimedOut => rec.outcome == Failed(DirectUnavailable)
              case Done =>
                match credentials(k)
                case Rejected(e) => rec.outcome == Failed(e)
                case NotGranted => rec.outcome == Failed(PermissionUnavailable)
                case Granted => connections(k) == NoChannel && rec.outcome == Failed(DirectUnavailable)
    }

    /** One turn of the loop: a credential, the permission, a channel. */
    method Try(deadlineMs: real) returns (r: Outcome, ghost rec: TryRec)
      modifies `now, `tries
      ensures old(now) <= now <= Max(old(now), deadlineMs)
      ensures tries == old(tries) + 1
      ensures TryOk(old(tries), deadlineMs, rec) && rec.start == old(now) && rec.end == now && rec.outcome == r
    {
      var k := tries;
      tries := tries + 1;
      var wait := Within(credentialTimes(k), deadlineMs);
      rec := TryRec(old(now), wait, now, None, now, Leased);
      match wait {
        case Cut => r := Failed(reason);
        case TimedOut => r := Failed(DirectUnavailable);
        case Done =>
          match credentials(k) {
            case Rejected(e) => r := Failed(e);
            case NotGranted => r := Failed(PermissionUnavailable);
            case Granted =>
              r, rec := Connect(k, deadlineMs, rec);
          }
      }
      rec := rec.(end := now, outcome := r);
    }

    /** `DirectChannelPool.acquire` as the loop sees it. */
    method Connect(k: nat, deadlineMs: real, ghost rec: TryRec) returns (r: Outcome, ghost rec': TryRec)
      modifies `now
      ensures old(now) <= now <= Max(old(now), deadlineMs)
      ensures match rec'.channel
        case None => connections(k) == NoChannel && now == old(now) && r == Failed(DirectUnavailable)
        case Some(wait) =>
          && connections(k) != NoChannel && FirstOf(old(now), connectTimes(k), deadlineMs, abortAt, wait, now)
          && r == (
               if wait == Cut then Failed(reason)
               else if wait == Done && connections(k) == Ready then Leased
               else Failed(DirectUnavailable))
      ensures rec' == rec.(channel := rec'.channel)
    {
      if connections(k) == NoChannel {
        return Failed(DirectUnavailable), rec.(channel := None);
      }
      var wait := Within(connectTimes(k), deadlineMs);
      rec' := rec.(channel := Some(wait));
      match wait {
        case Cut => r := Failed(reason);
        case TimedOut => r := Failed(DirectUnavailable);
        case Done => r := if connections(k) == Ready then Leased else Failed(DirectUnavailable);
      }
    }

    /** The tries so far: each came to what was scripted, and all but the last were followed by another. */
    ghost predicate TriesOk(recs: seq<TryRec>, from: nat, start: real, mode: Mode, deadlineMs: real) {
      forall i | 0 <= i < |recs| :: TryAt(recs, i, from, start, mode, deadlineMs)
    }

    ghost predicate TryAt(recs: seq<TryRec>, i: nat, from: nat, start: real, mode: Mode, deadlineMs: real)
      requires i < |recs|
    {
      && TryOk(from + i, deadlineMs, recs[i]) && recs[i].start == StartOf(recs, start, i)
      && (i < |recs| - 1 ==> TriesAgain(mode, recs[i].outcome, i, recs[i].end, deadlineMs))
    }

    lemma {:induction false} OneMoreTry(recs: seq<TryRec>, from: nat, start: real, mode: Mode, deadlineMs: real,
                                        rec: TryRec)
      requires TriesOk(recs, from, start, mode, deadlineMs)
      requires TryOk(from + |recs|, deadlineMs, rec) && rec.start == StartOf(recs, start, |recs|)
      requires recs != [] ==>
        var last := recs[|recs| - 1]; TriesAgain(mode, last.outcome, |recs| - 1, last.end, deadlineMs)
      ensures TriesOk(recs + [rec], from, start, mode, deadlineMs)
    {
      hide TryOk, TriesAgain;
      var all := recs + [rec];
      forall i | 0 <= i < |all| ensures TryAt(all, i, from, start, mode, deadlineMs) {
        assert i < |recs| ==> TryAt(recs, i, from, start, mode, deadlineMs);
      }
    }

    /** The loop between two tries. */
    ghost predicate Going(recs: seq<TryRec>, from: nat, start: real, now: real, mode: Mode, deadlineMs: real) {
      && TriesOk(recs, from, start, mode, deadlineMs)
      && start <= now == StartOf(recs, start, |recs|)
      && (recs != [] ==>
            && now < deadlineMs
            && var last := recs[|recs| - 1]; TriesAgain(mode, last.outcome, |recs| - 1, last.end, deadlineMs))
      && start + PausedMs(|recs|) <= now && |recs| <= 11
    }

    /** The last try is in; it may be the last of all. */
    ghost predicate Answered(recs: seq<TryRec>, from: nat, start: real, mode: Mode, deadlineMs: real) {
      && 1 <= |recs| <= (if mode == DirectMode then 12 else 1)
      && TriesOk(recs, from, start, mode, deadlineMs)
      && var last := recs[|recs| - 1];
         && start <= last.end <= Max(start, deadlineMs)
         && start + PausedMs(|recs| - 1) <= last.end
    }

    lemma {:induction false} NextTry(recs: seq<TryRec>, from: nat, start: real, mode: Mode, deadlineMs: real,
                                     rec: TryRec)
      requires Going(recs, from, start, rec.start, mode, deadlineMs)
      requires TryOk(from + |recs|, deadlineMs, rec) && rec.start <= rec.end <= Max(rec.start, deadlineMs)
      ensures Answered(recs + [rec], from, start, mode, deadlineMs)
    {
      OneMoreTry(recs, from, start, mode, deadlineMs, rec);
      hide TriesOk, TryOk, DelayMs, PausedMs;
    }

    lemma {:induction false} NextPause(recs: seq<TryRec>, from: nat, start: real, mode: Mode, deadlineMs: real,
                                       now: real)
      requires Answered(recs, from, start, mode, deadlineMs) && deadlineMs <= start + DIRECT_BUDGET_MS
      requires var last := recs[|recs| - 1];
        && TriesAgain(mode, last.outcome, |recs| - 1, last.end, deadlineMs)
        && now == last.end + DelayMs(|recs| - 1)
      ensures Going(recs, from, start, now, mode, deadlineMs)
      ensures DelayMs(|recs|) == Min(DelayMs(|recs| - 1) * 2.0, STRICT_RETRY_MAX_MS)
    {
      hide TriesOk;
      FewPauses(|recs|);
    }

    /** How a call ends after its last try: on what that try came to, or on the signal during the pause after it. */
    ghost predicate EndsOn(recs: seq<TryRec>, mode: Mode, deadlineMs: real, r: Outcome, now: real, retryAtMs: real,
                           retryAtMs': real)
      requires recs != []
    {
      var last := recs[|recs| - 1];
      if TriesAgain(mode, last.outcome, |recs| - 1, last.end, deadlineMs) then
        && abortAt.Some? && now == Max(last.end, abortAt.value) <= last.end + DelayMs(|recs| - 1)
        && r == Failed(reason) && retryAtMs' == retryAtMs
      else
        && now == last.end && r == Surfaced(last.outcome)
        && retryAtMs' == (
             if last.outcome.Leased? then 0.0
             else if IsFallback(last.outcome.error) then now + RETRY_COOLDOWN_MS
             else retryAtMs)
    }

    /** One turn of the loop: a try, and then a pause or the end. */
    method Turn(mode: Mode, deadlineMs: real, retryDelayMs: real, ghost recs: seq<TryRec>, ghost from: nat,
                ghost start: real)
      returns (quit: Option<Outcome>, nextDelayMs: real, ghost recs': seq<TryRec>)
      requires Going(recs, from, start, now, mode, deadlineMs) && deadlineMs <= start + DIRECT_BUDGET_MS
      requires retryDelayMs == DelayMs(|recs|) && tries == from + |recs|
      modifies this
      ensures |recs'| == |recs| + 1 && tries == from + |recs'|
      ensures Answered(recs', from, start, mode, deadlineMs)
      ensures quit.None? ==> Going(recs', from, start, now, mode, deadlineMs) && nextDelayMs == DelayMs(|recs'|)
      ensures quit.None? ==> retryAtMs == old(retryAtMs)
      ensures quit.Some? ==> EndsOn(recs', mode, deadlineMs, quit.value, now, old(retryAtMs), retryAtMs)
    {
      var outcome;
      ghost var rec;
      assert now == StartOf(recs, start, |recs|);
      outcome, rec := Try(deadlineMs);
      NextTry(recs, from, start, mode, deadlineMs, rec);
      hide TryOk, Going, Answered, DelayMs, StartOf;
      recs' := recs + [rec];
      nextDelayMs := retryDelayMs;
      if outcome.Leased? {
        retryAtMs := 0.0;
        return Some(Leased), nextDelayMs, recs';
      }
      var error := outcome.error;
      if mode == DirectMode && error == Rpc(UnavailableCode) && NotNegative(deadlineMs - now) > retryDelayMs {
        assert TriesAgain(mode, rec.outcome, |recs|, rec.end, deadlineMs);
        var cut := Delay(retryDelayMs);
        if cut {
          return Some(Failed(reason)), nextDelayMs, recs';
        }
        NextPause(recs', from, start, mode, deadlineMs, now);
        return None, Min(retryDelayMs * 2.0, STRICT_RETRY_MAX_MS), recs';
      }
      if IsFallback(error) {
        retryAtMs := now + RETRY_COOLDOWN_MS;
        return Some(Failed(DirectUnavailable)), nextDelayMs, recs';
      }
      return Some(Failed(error)), nextDelayMs, recs';
    }

    /**
     `acquireDirect`. In a cooldown auto mode fails at once. Otherwise the result is what the
     last try came to, fallback errors taken together, unless the signal cut the pause after
     it; and only a fallback error starts a cooldown.
     */
    method AcquireDirect(mode: Mode, timeoutMs: Option<real>) returns (r: Outcome, ghost recs: seq<TryRec>)
      modifies this
      ensures mode == AutoMode && old(now) < old(retryAtMs) ==>
        && r == Failed(DirectUnavailable) && recs == []
        && tries == old(tries) && now == old(now) && retryAtMs == old(retryAtMs)
      ensures !(mode == AutoMode && old(now) < old(retryAtMs)) ==>
        var deadlineMs := old(now) + BudgetMs(mode, timeoutMs);
        && tries == old(tries) + |recs|
        && Answered(recs, old(tries), old(now), mode, deadlineMs)
        && EndsOn(recs, mode, deadlineMs, r, now, old(retryAtMs), retryAtMs)
    {
      recs := [];
      if mode == AutoMode && now < retryAtMs {
        return Failed(DirectUnavailable), recs;
      }
      var deadlineMs := now + BudgetMs(mode, timeoutMs);
      var retryDelayMs := STRICT_RETRY_START_MS;
      while true
        invariant tries == old(tries) + |recs| && retryAtMs == old(retryAtMs) && retryDelayMs == DelayMs(|recs|)
        invariant Going(recs, old(tries), old(now), now, mode, deadlineMs)
        decreases 11 - |recs|
      {
        assert |recs| <= 11;
        hide Going, Answered, EndsOn, DelayMs, BudgetMs;
        var quit;
        quit, retryDelayMs, recs := Turn(mode, deadlineMs, retryDelayMs, recs, old(tries), old(now));
        if quit.Some? {
          return quit.value, recs;
        }
      }
    }

    /** A call ends by its deadline, unless the deadline has passed already; a lease comes before it. */
    lemma {:induction false} EndsInTime(recs: seq<TryRec>, from: nat, start: real, mode: Mode, deadlineMs: real,
                                        r: Outcome, now: real, retryAtMs: real, retryAtMs': real)
      requires Answered(recs, from, start, mode, deadlineMs)
      requires EndsOn(recs, mode, deadlineMs, r, now, retryAtMs, retryAtMs')
      ensures start <= now <= Max(start, deadlineMs)
      ensures r.Leased? ==> now < deadlineMs
      ensures r.Failed? && IsFallback(r.error) ==> r.error == DirectUnavailable || r == Failed(reason)
    {
      var last := recs[|recs| - 1];
      assert TryAt(recs, |recs| - 1, from, start, mode, deadlineMs);
      hide TriesOk;
    }
  }
}
