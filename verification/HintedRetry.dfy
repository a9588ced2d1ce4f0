/**
 Retrying a file call on the server's own hint (retry-hinted-unavailable.ts), over a
 scripted wire: what each call answers, how long it takes, whether a direct channel can be
 had, and how far a sleep overshoots are fixed in advance and otherwise arbitrary.
 */
module HintedRetry {
  import opened Reals
  import opened Sequences
  import opened Wrappers

  const HINTED_RETRY_MAX_ATTEMPTS := 3
  const HINTED_RETRY_MAX_DELAY_MS := 10_000.0
  const HINTED_RETRY_JITTER := 0.2
  const HINTED_RETRY_MIN_ATTEMPT_MS := 5_000.0

  datatype Code = Unavailable | ResourceExhausted | Cancelled | OtherCode

  /** The reason of a trusted error detail. */
  datatype Reason = RunnerOverloaded | ShardRetiring | OtherReason

  datatype RpcError = RpcError(code: Code, reason: Reason, retryDelayMs: Option<real>, id: nat)

  datatype Answer = Ok(value: nat) | Fail(error: RpcError)

  /** The client a call goes through. */
  datatype Via = Gateway | Direct(lease: nat)

  /** What asking for a direct channel comes to. */
  datatype Connect = Connected | NotAvailable | Refused(error: RpcError)

  datatype Event =
    | Acquired(lease: nat) | Called(via: Via, answer: Answer) | Discarded(lease: nat)
    | Released(lease: nat, discard: bool)

  datatype CallTry = CallTry(start: real, timeoutMs: Option<real>, end: real, answer: Answer)

  class Wire {
    const answers: nat -> Answer
    const durations: nat -> real
    const connects: nat -> Connect
    const connectTimes: nat -> real
    const oversleeps: nat -> real
    const randoms: nat -> real
    const abortAt: Option<real>
    var now: real
    var calls: nat
    var leases: nat
    var asked: nat
    var sleeps: nat
    var draws: nat
    ghost var log: seq<Event>
    /** How long each sleep was asked to be. */
    ghost var naps: seq<real>

    constructor (answers: nat -> Answer, durations: nat -> real, connects: nat -> Connect, connectTimes: nat -> real,
                 oversleeps: nat -> real, randoms: nat -> real, abortAt: Option<real>)
      ensures log == [] && naps == []
    {
      this.answers, this.durations, this.connects, this.connectTimes := answers, durations, connects, connectTimes;
      this.oversleeps, this.randoms, this.abortAt := oversleeps, randoms, abortAt;
      now, calls, leases, asked, sleeps, draws, log, naps := 0.0, 0, 0, 0, 0, 0, [], [];
    }

    predicate Aborted()
      reads this
    {
      AbortedBy(abortAt, now)
    }

    method Call(via: Via, timeoutMs: Option<real>) returns (answer: Answer, ghost t: CallTry)
      modifies `now, `calls, `log
      ensures answer == answers(old(calls)) && calls == old(calls) + 1 && log == old(log) + [Called(via, answer)]
      ensures t == CallTry(old(now), timeoutMs, now, answer) && old(now) <= now
    {
      answer := answers(calls);
      ghost var start := now;
      now := now + NotNegative(durations(calls));
      calls, log := calls + 1, log + [Called(via, answer)];
      t := CallTry(start, timeoutMs, now, answer);
    }

    /** Sleeps at least this long, unless the signal fires. */
    method Sleep(durationMs: real) returns (aborted: bool)
      requires durationMs >= 0.0
      modifies `now, `sleeps, `naps
      ensures old(now) <= now && (!aborted ==> now >= old(now) + durationMs)
      ensures naps == old(naps) + [durationMs]
      ensures aborted ==> Aborted()
    {
      var wake := now + durationMs + NotNegative(oversleeps(sleeps));
      sleeps, naps := sleeps + 1, naps + [durationMs];
      if Aborted() {
        return true;
      }
      if abortAt.Some? && abortAt.value <= wake {
        now := abortAt.value;
        return true;
      }
      now := wake;
      return false;
    }

    /** Asks the data plane for a channel, which takes a while. */
    method Connect() returns (connect: Connect)
      modifies `now, `asked
      ensures connect == connects(old(asked)) && asked == old(asked) + 1 && old(now) <= now
    {
      connect := connects(asked);
      now, asked := now + NotNegative(connectTimes(asked)), asked + 1;
    }

    method Random() returns (r: real)
      modifies `draws
      ensures 0.0 <= r < 1.0
    {
      var drawn := randoms(draws);
      draws := draws + 1;
      r := if 0.0 <= drawn < 1.0 then drawn else 0.0;
    }
  }

  /** Which raw errors may be retried. */
  datatype Retryable = OnUnavailable | OnOverloaded

  predicate Accepts(retryable: Retryable, e: RpcError) {
    match retryable
    case OnUnavailable => e.code == Unavailable
    case OnOverloaded => e.code == ResourceExhausted && e.reason == RunnerOverloaded
  }

  /** `hintOf`. */
  function HintOf(e: RpcError, retryable: Retryable): Option<real> {
    if Accepts(retryable, e) && e.retryDelayMs.Some? && e.retryDelayMs.value >= 0.0 then e.retryDelayMs else None
  }

  // ----- What a burst of calls promises ----------------------------------------------------

  /** Another call follows only a hinted failure, after the delay asked for and with at least five seconds left. */
  ghost predicate MayFollow(before: CallTry, start: real, timeoutMs: Option<real>, retryable: Retryable,
                            deadline: Option<real>)
  {
    && before.answer.Fail? && HintOf(before.answer.error, retryable).Some?
    && (var hint := HintOf(before.answer.error, retryable).value;
        hint <= HINTED_RETRY_MAX_DELAY_MS && start >= before.end + hint)
    && match deadline
       case None => timeoutMs.None?
       case Some(d) => timeoutMs == Some(d - start) && timeoutMs.value >= HINTED_RETRY_MIN_ATTEMPT_MS
  }

  ghost predicate Hinted(tries: seq<CallTry>, timeoutMs: Option<real>, retryable: Retryable, deadline: Option<real>) {
    && tries != [] && tries[0].timeoutMs == timeoutMs
    && (timeoutMs.None? ==> deadline.None?)
    && (timeoutMs.Some? ==> deadline == Some(tries[0].start + timeoutMs.value))
    && forall i | 1 <= i < |tries| ::
         MayFollow(tries[i - 1], tries[i].start, tries[i].timeoutMs, retryable, deadline)
  }

  /** It gives up on a hinted failure only for want of attempts or time, or when the delay asked for is too long. */
  ghost predicate GivesUp(tries: seq<CallTry>, retryable: Retryable, maxAttempts: nat, deadline: Option<real>,
                          now: real)
    requires tries != []
  {
    var last := tries[|tries| - 1];
    last.answer.Fail? && HintOf(last.answer.error, retryable).Some? ==>
      var hint := HintOf(last.answer.error, retryable).value;
      || |tries| >= maxAttempts
      || hint > HINTED_RETRY_MAX_DELAY_MS
      || (deadline.Some? && deadline.value < now + (1.0 + HINTED_RETRY_JITTER) * hint + HINTED_RETRY_MIN_ATTEMPT_MS)
  }

  /** The answers are those scripted from this call on. */
  ghost predicate Scripted(answers: nat -> Answer, from: nat, tries: seq<CallTry>) {
    forall i | 0 <= i < |tries| :: tries[i].answer == answers(from + i)
  }

  lemma ScriptedAppend(answers: nat -> Answer, from: nat, a: seq<CallTry>, b: seq<CallTry>)
    requires Scripted(answers, from, a) && Scripted(answers, from + |a|, b)
    ensures Scripted(answers, from, a + b)
  {
    forall i | 0 <= i < |a + b| ensures (a + b)[i].answer == answers(from + i) {
      if i >= |a| {
        assert b[i - |a|].answer == answers(from + |a| + (i - |a|));
      }
    }
  }

  /** Each pause is for the hint of the failure before it, stretched by up to a fifth; the last may lead to no call. */
  ghost predicate Paused(tries: seq<CallTry>, pauses: seq<real>, retryable: Retryable) {
    && |tries| - 1 <= |pauses| <= |tries|
    && forall i | 0 <= i < |pauses| :: PauseOk(tries[i].answer, pauses[i], retryable)
  }

  ghost predicate PauseOk(answer: Answer, pauseMs: real, retryable: Retryable) {
    && answer.Fail? && HintOf(answer.error, retryable).Some?
    && (var hint := HintOf(answer.error, retryable).value;
        hint <= HINTED_RETRY_MAX_DELAY_MS && hint <= pauseMs <= (1.0 + HINTED_RETRY_JITTER) * hint)
  }

  lemma {:induction false} PausedMore(tries: seq<CallTry>, pauses: seq<real>, retryable: Retryable, t: CallTry,
                                      more: seq<real>)
    requires Paused(tries, pauses, retryable) && |pauses| == |tries|
    requires more == [] || (|more| == 1 && PauseOk(t.answer, more[0], retryable))
    ensures Paused(tries + [t], pauses + more, retryable)
  {
    hide PauseOk;
  }

  predicate AbortedBy(abortAt: Option<real>, now: real) {
    abortAt.Some? && abortAt.value <= now
  }

  /** A whole burst: the result is the last answer, unless the signal cuts a pause short. */
  ghost predicate Burst(tries: seq<CallTry>, timeoutMs: Option<real>, maxAttempts: nat, retryable: Retryable,
                        start: real, r: Answer, now: real, abortAt: Option<real>)
  {
    && Hinted(tries, timeoutMs, retryable, DeadlineOf(start, timeoutMs)) && tries[0].start == start
    && |tries| <= (if maxAttempts == 0 then 1 else maxAttempts)
    && (|| r == tries[|tries| - 1].answer
        || (r == Fail(CANCELLED) && AbortedBy(abortAt, now) && EndsInHint(tries, retryable)))
    && (r != Fail(CANCELLED) ==> GivesUp(tries, retryable, maxAttempts, DeadlineOf(start, timeoutMs), now))
  }

  function CallEvents(via: Via, tries: seq<CallTry>): seq<Event> {
    seq(|tries|, i requires 0 <= i < |tries| => Called(via, tries[i].answer))
  }

  const CANCELLED := RpcError(Cancelled, OtherReason, None, 0)

  /** The hint, stretched by up to a fifth. */
  function Jittered(hint: real, share: real): (r: real)
    requires 0.0 <= hint && 0.0 <= share < 1.0
    ensures hint <= r <= (1.0 + HINTED_RETRY_JITTER) * hint
  {
    assert 0.0 <= hint * share <= hint;
    hint * (1.0 + HINTED_RETRY_JITTER * share)
  }

  function DeadlineOf(start: real, timeoutMs: Option<real>): Option<real> {
    if timeoutMs.None? then None else Some(start + timeoutMs.value)
  }

  /** The loop before a call: nothing done yet, or a hinted failure waited out. */
  ghost predicate Ready(tries: seq<CallTry>, timeoutMs: Option<real>, retryable: Retryable, deadline: Option<real>,
                        start: real, now: real, timeout: Option<real>)
  {
    if tries == [] then timeout == timeoutMs && now == start && deadline == DeadlineOf(start, timeoutMs)
    else
      && Hinted(tries, timeoutMs, retryable, deadline) && tries[0].start == start
      && MayFollow(tries[|tries| - 1], now, timeout, retryable, deadline)
  }

  lemma {:induction false} AddTry(tries: seq<CallTry>, timeoutMs: Option<real>, retryable: Retryable,
                                  deadline: Option<real>, start: real, t: CallTry)
    requires Ready(tries, timeoutMs, retryable, deadline, start, t.start, t.timeoutMs)
    ensures Hinted(tries + [t], timeoutMs, retryable, deadline) && (tries + [t])[0].start == start
  {
  }

  ghost predicate EndsInHint(tries: seq<CallTry>, retryable: Retryable) {
    tries != [] &&
      var last := tries[|tries| - 1].answer;
      && last.Fail? && HintOf(last.error, retryable).Some?
      && HintOf(last.error, retryable).value <= HINTED_RETRY_MAX_DELAY_MS
  }

  /** After a failure: a pause and the next call's timeout, or the end. */
  method Pause(w: Wire, ghost tries: seq<CallTry>, error: RpcError, hint: Option<real>, timeoutMs: Option<real>,
               retryable: Retryable, deadline: Option<real>, ghost maxAttempts: nat)
    returns (quit: Option<Answer>, timeout: Option<real>, ghost pauses: seq<real>)
    requires tries != [] && tries[|tries| - 1].answer == Fail(error) && tries[|tries| - 1].end == w.now
    requires hint == if |tries| < maxAttempts then HintOf(error, retryable) else None
    requires deadline.None? ==> timeoutMs.None?
    modifies w`now, w`sleeps, w`draws, w`naps
    ensures old(w.now) <= w.now && w.naps == old(w.naps) + pauses
    ensures pauses == [] || (|pauses| == 1 && PauseOk(Fail(error), pauses[0], retryable))
    ensures quit.Some? ==>
      quit.value == Fail(error) || (quit.value == Fail(CANCELLED) && w.Aborted() && EndsInHint(tries, retryable))
    ensures quit.Some? && quit.value != Fail(CANCELLED) ==> GivesUp(tries, retryable, maxAttempts, deadline, w.now)
    ensures quit.None? ==> |tries| < maxAttempts && pauses != []
    ensures quit.None? ==> MayFollow(tries[|tries| - 1], w.now, timeout, retryable, deadline)
  {
    timeout, pauses := timeoutMs, [];
    if hint.None? || hint.value > HINTED_RETRY_MAX_DELAY_MS {
      return Some(Fail(error)), timeout, pauses;
    }
    var share := w.Random();
    var sleepMs := Jittered(hint.value, share);
    if deadline.Some? && w.now + sleepMs + HINTED_RETRY_MIN_ATTEMPT_MS > deadline.value {
      return Some(Fail(error)), timeout, pauses;
    }
    pauses := [sleepMs];
    var aborted := w.Sleep(sleepMs);
    if aborted || w.Aborted() {
      return Some(Fail(CANCELLED)), timeout, pauses;
    }
    if deadline.Some? {
      timeout := Some(deadline.value - w.now);
      if timeout.value < HINTED_RETRY_MIN_ATTEMPT_MS {
        return Some(Fail(error)), timeout, pauses;
      }
    }
    return None, timeout, pauses;
  }

  /** `retryHintedUnavailable`. */
  method RetryHintedUnavailable(w: Wire, via: Via, timeoutMs: Option<real>, maxAttempts: nat, retryable: Retryable)
    returns (r: Answer, ghost tries: seq<CallTry>, ghost pauses: seq<real>)
    modifies w`now, w`calls, w`sleeps, w`draws, w`log, w`naps
    ensures w.log == old(w.log) + CallEvents(via, tries) && old(w.now) <= w.now
    ensures w.calls == old(w.calls) + |tries| && Scripted(w.answers, old(w.calls), tries)
    ensures Burst(tries, timeoutMs, maxAttempts, retryable, old(w.now), r, w.now, w.abortAt)
    ensures w.naps == old(w.naps) + pauses && Paused(tries, pauses, retryable)
  {
    var deadline := DeadlineOf(w.now, timeoutMs);
    var timeout, attempts := timeoutMs, 1;
    tries, pauses := [], [];
    assert CallEvents(via, tries) == [];
    while true
      invariant attempts == |tries| + 1 && (tries != [] ==> attempts <= maxAttempts)
      invariant w.log == old(w.log) + CallEvents(via, tries) && old(w.now) <= w.now
      invariant w.calls == old(w.calls) + |tries| && Scripted(w.answers, old(w.calls), tries)
      invariant Ready(tries, timeoutMs, retryable, deadline, old(w.now), w.now, timeout)
      invariant deadline.None? ==> timeout.None?
      invariant w.naps == old(w.naps) + pauses && |pauses| == |tries| && Paused(tries, pauses, retryable)
      decreases maxAttempts - attempts
    {
      var answer;
      ghost var t;
      answer, t := w.Call(via, timeout);
      AddTry(tries, timeoutMs, retryable, deadline, old(w.now), t);
      ghost var before := tries;
      hide Hinted, MayFollow, Paused, PauseOk;
      assert CallEvents(via, tries + [t]) == CallEvents(via, tries) + [Called(via, answer)];
      tries := tries + [t];
      if answer.Ok? {
        PausedMore(before, pauses, retryable, t, []);
        assert pauses + [] == pauses;
        return answer, tries, pauses;
      }
      var hint := if attempts < maxAttempts then HintOf(answer.error, retryable) else None;
      var quit;
      ghost var more;
      quit, timeout, more := Pause(w, tries, answer.error, hint, timeout, retryable, deadline, maxAttempts);
      PausedMore(before, pauses, retryable, t, more);
      Regroup(old(w.naps), pauses, more);
      pauses := pauses + more;
      if quit.Some? {
        return quit.value, tries, pauses;
      }
      attempts := attempts + 1;
    }
  }
}
