/** Bounded retry on transient errors (retry-transient-rpc.ts). */
module RetryTransient {
  import opened Reals
  import opened Sequences
  import opened Wrappers
  import opened Worlds

  const POLL_INTERVAL_MS := 200.0
  const MAX_POLL_INTERVAL_MS := 2_000.0
  const BACKOFF_FACTOR := 1.5
  const POLL_RETRY_BUDGET_MS := 30_000.0
  const POLL_RPC_TIMEOUT_MS := 15_000.0
  const MAX_HINTED_DELAY_MS := 10_000.0
  const MIN_POLL_RPC_TIMEOUT_MS := 100.0

  datatype Outcome = Value(info: Info) | Threw(error: Error) | AbortedWhileAsleep

  predicate Retryable(kind: ErrorKind) {
    kind in {Unavailable, Timeout, ResourceExhausted}
  }

  predicate IsTransportError(kind: ErrorKind) {
    kind in {NotFound, Unavailable, Timeout, ResourceExhausted, OtherTransport}
  }

  /** `resolveAttemptTimeoutMs`. */
  function ResolveAttemptTimeoutMs(
      budgetMs: real, deadline: Option<real>, now: real, retryDeadline: Option<real>): Option<real>
  {
    var remaining :=
      if retryDeadline.Some? then retryDeadline.value - now
      else
        var first := Min(POLL_RPC_TIMEOUT_MS, budgetMs);
        if deadline.Some? then Min(first, deadline.value - now) else first;
    if retryDeadline.Some? && remaining < MIN_POLL_RPC_TIMEOUT_MS then None
    else if remaining <= 0.0 then None
    else Some(Min(POLL_RPC_TIMEOUT_MS, remaining))
  }

  /** A positive server hint, in milliseconds. */
  function HintMs(error: Error): Option<real> {
    if IsTransportError(error.kind) && error.hintNanos.Some? && error.hintNanos.value > 0
    then Some(error.hintNanos.value as real / 1_000_000.0)
    else None
  }

  // ----- What a burst of tries promises --------------------------------------

  /** The end of the retry window, known once the first try has failed. */
  ghost function Limit(firstEnd: real, budgetMs: real, deadline: Option<real>): real {
    if deadline.Some? then Min(firstEnd + budgetMs, deadline.value) else firstEnd + budgetMs
  }

  /** Every try after the first has what is left of the window, up to 15 s, and at least 100 ms, for its timeout. */
  ghost predicate RetriesFit(tries: seq<Try>, limit: real) {
    forall i | 1 <= i < |tries| ::
      && MIN_POLL_RPC_TIMEOUT_MS <= tries[i].timeoutMs == Min(POLL_RPC_TIMEOUT_MS, limit - tries[i].start)
  }

  ghost predicate NapsFit(naps: seq<Nap>, limit: real) {
    forall n <- naps :: 0.0 < n.durationMs <= MAX_HINTED_DELAY_MS && n.start + n.durationMs <= limit
  }

  /** Only a retryable failure is followed by another try. */
  ghost predicate OnlyRetryableRetried(tries: seq<Try>, nonRetryable: set<ErrorKind>) {
    forall i | 0 <= i < |tries| - 1 ::
      && tries[i].reply.Err?
      && Retryable(tries[i].reply.error.kind)
      && tries[i].reply.error.kind !in nonRetryable
  }

  ghost predicate NoHints(tries: seq<Try>) {
    forall t <- tries :: t.reply.Err? ==> HintMs(t.reply.error).None?
  }

  /** A thrown value that is not an `Error` is wrapped in one; anything else is rethrown as it is. */
  function Rethrown(error: Error): Error {
    if error.kind == NotAnError then error.(kind := OtherError, hintNanos := None) else error
  }

  /** The caller gets the last reply: its value, or its error unchanged. */
  ghost predicate Reports(tries: seq<Try>, r: Outcome) {
    tries != [] && match tries[|tries| - 1].reply
      case Ok(info) => r == Value(info)
      case Err(error) => r == AbortedWhileAsleep || r == Threw(error) || r == Threw(Rethrown(error))
  }

  /** A random share of an interval stays inside it. */
  function Scale(share: real, spread: real): (r: real)
    requires 0.0 <= share < 1.0 && 0.0 <= spread
    ensures 0.0 <= r <= spread
  {
    assert share * spread <= 1.0 * spread;
    share * spread
  }

  /** The most an unhinted pause may be after one of `prevSleepMs`. */
  function BackoffCap(prevSleepMs: real): real {
    Max(POLL_INTERVAL_MS, Min(MAX_POLL_INTERVAL_MS, prevSleepMs * BACKOFF_FACTOR))
  }

  /** A pause is the server's hint, or else a jittered backoff on the pause before, and never outlasts the window. */
  ghost predicate PauseOk(error: Error, prevSleepMs: real, remaining: real, sleepMs: real) {
    match HintMs(error)
    case Some(hint) => sleepMs == Min(hint, Min(remaining, MAX_HINTED_DELAY_MS))
    case None =>
      if remaining < POLL_INTERVAL_MS then sleepMs == remaining
      else POLL_INTERVAL_MS <= sleepMs <= Min(remaining, BackoffCap(prevSleepMs))
  }

  /** The pause before the i-th pause; the first backs off on the poll interval. */
  ghost function PauseBefore(naps: seq<Nap>, i: int): real
    requires 0 <= i <= |naps|
  {
    if i == 0 then POLL_INTERVAL_MS else naps[i - 1].durationMs
  }

  /** The i-th pause follows the failure of the i-th try. */
  ghost predicate PauseAt(tries: seq<Try>, naps: seq<Nap>, limit: real, i: int)
    requires 0 <= i < |naps| && i < |tries|
  {
    && tries[i].reply.Err? && naps[i].start == tries[i].end
    && PauseOk(tries[i].reply.error, PauseBefore(naps, i), limit - naps[i].start, naps[i].durationMs)
  }

  /** Tries and pauses alternate, each starting where the last one ended. */
  ghost predicate Alternate(tries: seq<Try>, naps: seq<Nap>, limit: real) {
    && |naps| <= |tries| <= |naps| + 1
    && (forall i | 0 <= i < |naps| :: PauseAt(tries, naps, limit, i))
    && (forall i | 1 <= i < |tries| :: tries[i].start == naps[i - 1].start + naps[i - 1].durationMs)
  }

  lemma {:induction false} AlternateTry(tries: seq<Try>, naps: seq<Nap>, limit: real, t: Try)
    requires Alternate(tries, naps, limit) && |naps| == |tries|
    requires naps != [] ==> t.start == naps[|naps| - 1].start + naps[|naps| - 1].durationMs
    ensures Alternate(tries + [t], naps, limit)
  {
    hide PauseOk;
    forall i | 0 <= i < |naps| ensures PauseAt(tries + [t], naps, limit, i) {
      assert PauseAt(tries, naps, limit, i);
    }
    hide PauseAt;
  }

  lemma {:induction false} AlternateNap(tries: seq<Try>, naps: seq<Nap>, limit: real, n: Nap)
    requires Alternate(tries, naps, limit) && |tries| == |naps| + 1
    requires tries[|naps|].reply.Err? && n.start == tries[|naps|].end
    requires PauseOk(tries[|naps|].reply.error, PauseBefore(naps, |naps|), limit - n.start, n.durationMs)
    ensures Alternate(tries, naps + [n], limit)
  {
    hide PauseOk;
    forall i | 0 <= i <= |naps| ensures PauseAt(tries, naps + [n], limit, i) {
      assert i < |naps| ==> PauseAt(tries, naps, limit, i);
      assert PauseBefore(naps + [n], i) == PauseBefore(naps, i);
    }
    hide PauseAt;
  }

  /** The pause before the next try. */
  method NextSleepMs(w: World, error: Error, remaining: real, prevSleepMs: real) returns (sleepMs: real)
    requires remaining > 0.0 && prevSleepMs > 0.0
    modifies w`draws
    ensures 0.0 < sleepMs <= remaining && sleepMs <= MAX_HINTED_DELAY_MS
    ensures PauseOk(error, prevSleepMs, remaining, sleepMs)
  {
    var hint := HintMs(error);
    if hint.Some? {
      sleepMs := Min(hint.value, Min(remaining, MAX_HINTED_DELAY_MS));
    } else {
      var backoff := prevSleepMs * BACKOFF_FACTOR;
      var ceiling := Max(POLL_INTERVAL_MS,
        Min(MAX_POLL_INTERVAL_MS, Min(backoff, remaining)));
      assert ceiling <= BackoffCap(prevSleepMs);
      var r := w.Random();
      var jitter := Scale(r, ceiling - POLL_INTERVAL_MS);
      sleepMs := Min(POLL_INTERVAL_MS + jitter, remaining);
    }
  }

  /** Whole nanoseconds left in the window: what the loop counts down. */
  ghost function NanosLeft(retryDeadline: Option<real>, now: real): nat {
    if retryDeadline.None? || retryDeadline.value <= now then 0
    else ((retryDeadline.value - now) * 1_000_000.0).Floor
  }

  /** One call of the retry loop. */
  datatype Call = Call(start: real, budgetMs: real, deadline: Option<real>, nonRetryable: set<ErrorKind>)

  function FirstTimeoutMs(c: Call): real {
    match ResolveAttemptTimeoutMs(c.budgetMs, c.deadline, c.start, None)
    case Some(t) => t
    case None => 1.0
  }

  /** Everything promised of the tries and naps of one call. */
  ghost predicate Promised(c: Call, tries: seq<Try>, naps: seq<Nap>, now: real) {
    && tries != []
    && (var limit := Limit(tries[0].end, c.budgetMs, c.deadline);
        RetriesFit(tries, limit) && NapsFit(naps, limit) && now <= Max(tries[0].end, limit))
    && OnlyRetryableRetried(tries, c.nonRetryable)
    && tries[0].start == c.start && tries[0].timeoutMs == FirstTimeoutMs(c)
    && tries[0].start <= tries[0].end <= tries[0].start + tries[0].timeoutMs
    && tries[0].end <= now && tries[|tries| - 1].end <= now
    && Paced(tries)
  }

  /** Without hints, tries after the first are at least 200 ms apart. */
  ghost predicate Paced(tries: seq<Try>) {
    NoHints(tries) && |tries| > 1 ==>
      POLL_INTERVAL_MS * (|tries| - 1) as real <= tries[|tries| - 1].start - tries[0].end
  }

  /** An error that may be retried is given up on only when less than 100 ms of the window is left. */
  ghost predicate GivesUpLate(c: Call, tries: seq<Try>, r: Outcome, now: real)
    requires tries != []
  {
    r.Threw? && MayRetry(c, r.error) ==>
      now + MIN_POLL_RPC_TIMEOUT_MS > Limit(tries[0].end, c.budgetMs, c.deadline)
  }

  predicate MayRetry(c: Call, error: Error) {
    Retryable(error.kind) && error.kind !in c.nonRetryable && c.budgetMs > 0.0
  }

  /** The loop between two rounds: nothing done yet, or a pause just slept after a retryable failure. */
  ghost predicate AtHead(c: Call, tries: seq<Try>, naps: seq<Nap>, now: real) {
    if tries == [] then naps == [] && now == c.start
    else
      && Promised(c, tries, naps, now)
      && FailedRetryably(c, tries)
      && now + MIN_POLL_RPC_TIMEOUT_MS <= Limit(tries[0].end, c.budgetMs, c.deadline)
      && (NoHints(tries) ==> POLL_INTERVAL_MS * |tries| as real <= now - tries[0].end)
  }

  ghost predicate FailedRetryably(c: Call, tries: seq<Try>) {
    tries != [] && tries[|tries| - 1].reply.Err? && MayRetry(c, tries[|tries| - 1].reply.error)
  }

  lemma {:induction false} AddTry(c: Call, tries: seq<Try>, naps: seq<Nap>, t: Try)
    requires AtHead(c, tries, naps, t.start)
    requires t.start <= t.end <= t.start + t.timeoutMs
    requires if tries == [] then t.timeoutMs == FirstTimeoutMs(c)
             else ResolveAttemptTimeoutMs(c.budgetMs, c.deadline, t.start,
                    Some(Limit(tries[0].end, c.budgetMs, c.deadline))) == Some(t.timeoutMs)
    ensures Promised(c, tries + [t], naps, t.end)
  {
  }

  lemma {:induction false} AddNap(c: Call, tries: seq<Try>, naps: seq<Nap>, now: real, nap: Nap, later: real)
    requires Promised(c, tries, naps, now)
    requires nap.start == now && 0.0 < nap.durationMs <= MAX_HINTED_DELAY_MS
    requires now <= later <= now + nap.durationMs <= Limit(tries[0].end, c.budgetMs, c.deadline)
    ensures Promised(c, tries, naps + [nap], later)
  {
  }

  lemma {:induction false} AtMost150Tries(c: Call, tries: seq<Try>, naps: seq<Nap>, now: real)
    requires Promised(c, tries, naps, now)
    requires c.budgetMs == POLL_RETRY_BUDGET_MS && NoHints(tries)
    ensures |tries| <= 150
  {
  }

  /** The loop between two rounds, with its variables. */
  ghost predicate Head(c: Call, tries: seq<Try>, naps: seq<Nap>, now: real, retryDeadline: Option<real>,
                       prevSleepMs: real)
  {
    && AtHead(c, tries, naps, now)
    && |naps| == |tries| && prevSleepMs == PauseBefore(naps, |naps|) && prevSleepMs > 0.0
    && if tries == [] then retryDeadline.None?
       else
         && retryDeadline == Some(Limit(tries[0].end, c.budgetMs, c.deadline))
         && Alternate(tries, naps, retryDeadline.value)
         && now == naps[|naps| - 1].start + prevSleepMs
  }

  /** What holds of every call when it ends, and of every round once its try is answered. */
  ghost predicate Sound(c: Call, tries: seq<Try>, naps: seq<Nap>, now: real) {
    && Promised(c, tries, naps, now)
    && Alternate(tries, naps, Limit(tries[0].end, c.budgetMs, c.deadline))
  }

  /** The last try has just failed with an error that may be retried. */
  ghost predicate Failing(c: Call, tries: seq<Try>, naps: seq<Nap>, now: real, error: Error, retryDeadline: real,
                          prevSleepMs: real)
  {
    && Sound(c, tries, naps, now) && MayRetry(c, error) && |tries| == |naps| + 1
    && (var last := tries[|naps|]; last.reply == Err(error) && last.start <= last.end == now)
    && retryDeadline == Limit(tries[0].end, c.budgetMs, c.deadline)
    && prevSleepMs == PauseBefore(naps, |naps|)
  }

  /** A pause keeps a call sound, even when the signal cuts it short. */
  lemma {:induction false} Slept(c: Call, tries: seq<Try>, naps: seq<Nap>, error: Error, retryDeadline: real,
                                 prevSleepMs: real, nap: Nap, later: real)
    requires Failing(c, tries, naps, nap.start, error, retryDeadline, prevSleepMs)
    requires 0.0 < nap.durationMs <= MAX_HINTED_DELAY_MS
    requires nap.start <= later <= nap.start + nap.durationMs <= retryDeadline
    requires PauseOk(error, prevSleepMs, retryDeadline - nap.start, nap.durationMs)
    ensures Sound(c, tries, naps + [nap], later)
  {
    hide PauseOk;
    AddNap(c, tries, naps, nap.start, nap, later);
    hide Promised;
    AlternateNap(tries, naps, retryDeadline, nap);
    hide Alternate;
  }

  /** After a whole pause that leaves time for another try, the loop is at its head. */
  lemma {:induction false} Rested(c: Call, tries: seq<Try>, naps: seq<Nap>, error: Error, retryDeadline: real,
                                  prevSleepMs: real, nap: Nap, now: real)
    requires Failing(c, tries, naps, nap.start, error, retryDeadline, prevSleepMs)
    requires Sound(c, tries, naps + [nap], now)
    requires now == nap.start + nap.durationMs && now + MIN_POLL_RPC_TIMEOUT_MS <= retryDeadline
    requires 0.0 < nap.durationMs < retryDeadline - nap.start
    requires PauseOk(error, prevSleepMs, retryDeadline - nap.start, nap.durationMs)
    ensures Head(c, tries, naps + [nap], now, Some(retryDeadline), nap.durationMs)
  {
  }

  /** With less than 100 ms of the window left, giving up is in order. */
  lemma {:induction false} TooLate(c: Call, tries: seq<Try>, naps: seq<Nap>, start: real, error: Error,
                                   retryDeadline: real, prevSleepMs: real, now: real)
    requires Failing(c, tries, naps, start, error, retryDeadline, prevSleepMs)
    requires now + MIN_POLL_RPC_TIMEOUT_MS > retryDeadline
    ensures tries != [] && GivesUpLate(c, tries, Threw(error), now)
  {
  }

  /** After a retryable failure: `None` to go round again, `Some` to give up. */
  method Pause(w: World, ghost c: Call, ghost tries: seq<Try>, ghost naps: seq<Nap>,
               error: Error, retryDeadline: real, prevSleepMs: real)
    returns (quit: Option<Outcome>, sleepMs: real, ghost rest: seq<Nap>)
    requires Failing(c, tries, naps, w.now, error, retryDeadline, prevSleepMs) && prevSleepMs > 0.0
    modifies w`now, w`naps, w`draws
    ensures w.naps == old(w.naps) + rest
    ensures Sound(c, tries, naps + rest, w.now)
    ensures quit.None? ==> Head(c, tries, naps + rest, w.now, Some(retryDeadline), sleepMs)
    ensures quit.Some? ==> quit == Some(AbortedWhileAsleep) || quit == Some(Threw(error))
    ensures quit == Some(Threw(error)) ==> tries != [] && GivesUpLate(c, tries, Threw(error), w.now)
    ensures quit == Some(AbortedWhileAsleep) ==> w.Aborted()
    ensures quit.None? ==> NanosLeft(Some(retryDeadline), w.now) < NanosLeft(Some(retryDeadline), old(w.now))
  {
    assert naps + [] == naps;
    if w.now >= retryDeadline {
      TooLate(c, tries, naps, w.now, error, retryDeadline, prevSleepMs, w.now);
      return Some(Threw(error)), prevSleepMs, [];
    }
    hide Sound, Head, NanosLeft, GivesUpLate, Failing;
    sleepMs := NextSleepMs(w, error, retryDeadline - w.now, prevSleepMs);
    ghost var nap := Nap(w.now, sleepMs);
    var aborted := w.Sleep(sleepMs);
    Slept(c, tries, naps, error, retryDeadline, prevSleepMs, nap, w.now);
    hide PauseOk;
    if aborted {
      return Some(AbortedWhileAsleep), sleepMs, [nap];
    }
    if w.now >= retryDeadline || retryDeadline - w.now < MIN_POLL_RPC_TIMEOUT_MS {
      TooLate(c, tries, naps, nap.start, error, retryDeadline, prevSleepMs, w.now);
      return Some(Threw(error)), sleepMs, [nap];
    }
    NanosStep(retryDeadline, nap, prevSleepMs, error, w.now);
    Rested(c, tries, naps, error, retryDeadline, prevSleepMs, nap, w.now);
    return None, sleepMs, [nap];
  }

  /** A hint is at least a nanosecond, and a backoff is longer, so every pause is seen by the measure. */
  lemma {:induction false} NanosStep(retryDeadline: real, nap: Nap, prevSleepMs: real, error: Error, now: real)
    requires PauseOk(error, prevSleepMs, retryDeadline - nap.start, nap.durationMs)
    requires now == nap.start + nap.durationMs < retryDeadline
    ensures NanosLeft(Some(retryDeadline), now) < NanosLeft(Some(retryDeadline), nap.start)
  {
  }

  lemma {:induction false} Answered(c: Call, tries: seq<Try>, naps: seq<Nap>, retryDeadline: Option<real>,
                                    prevSleepMs: real, t: Try)
    requires Head(c, tries, naps, t.start, retryDeadline, prevSleepMs)
    requires t.start <= t.end <= t.start + t.timeoutMs
    requires t.timeoutMs == TimeoutAt(c, t.start, retryDeadline)
    ensures Sound(c, tries + [t], naps, t.end)
    ensures retryDeadline.Some? ==> retryDeadline.value == Limit((tries + [t])[0].end, c.budgetMs, c.deadline)
    ensures retryDeadline.Some? ==> ResolveAttemptTimeoutMs(c.budgetMs, c.deadline, t.start, retryDeadline).Some?
    ensures retryDeadline.None? ==> tries == []
  {
    AddTry(c, tries, naps, t);
    hide Promised;
    if tries != [] {
      AlternateTry(tries, naps, retryDeadline.value, t);
    }
  }

  /** A first attempt with no usable time left is still made, with a timeout of 1 ms. */
  function TimeoutAt(c: Call, now: real, retryDeadline: Option<real>): (r: real)
    ensures r > 0.0
  {
    match ResolveAttemptTimeoutMs(c.budgetMs, c.deadline, now, retryDeadline)
    case Some(t) => t
    case None => 1.0
  }

  /** One round: a try, and then a pause or the end of the call. */
  method Round(w: World, c: Call, retryDeadline: Option<real>, prevSleepMs: real,
               ghost tries: seq<Try>, ghost naps: seq<Nap>)
    returns (quit: Option<Outcome>, retryDeadline': Option<real>, sleptMs: real, ghost t: Try, ghost rest: seq<Nap>)
    requires Head(c, tries, naps, w.now, retryDeadline, prevSleepMs) && w.Recorded()
    modifies w
    ensures w.tries == old(w.tries) + [t] && w.naps == old(w.naps) + rest && w.Recorded()
    ensures quit.Some? ==> Ends(c, tries + [t], naps + rest, w.now, quit.value)
    ensures quit.Some? && quit.value.AbortedWhileAsleep? ==> w.Aborted()
    ensures quit.None? ==> Head(c, tries + [t], naps + rest, w.now, retryDeadline', sleptMs)
    ensures quit.None? ==> Nearer(retryDeadline, old(w.now), retryDeadline', w.now)
  {
    var timeoutMs := ResolveAttemptTimeoutMs(c.budgetMs, c.deadline, w.now, retryDeadline);
    retryDeadline', sleptMs, rest := retryDeadline, prevSleepMs, [];
    assert naps + [] == naps;
    assert prevSleepMs == PauseBefore(naps, |naps|) && prevSleepMs > 0.0 && |naps| == |tries|;
    assert tries == [] ==> w.now == c.start;
    var reply := w.Attempt(TimeoutAt(c, w.now, retryDeadline));
    t := w.tries[|w.tries| - 1];
    Answered(c, tries, naps, retryDeadline, prevSleepMs, t);
    hide Head, Alternate;
    if reply.Ok? {
      quit := Some(Value(reply.info));
      return;
    }
    var error := reply.error;
    if timeoutMs.None? || error.kind in c.nonRetryable || !Retryable(error.kind) || c.budgetMs <= 0.0 {
      quit := Some(Threw(if timeoutMs.None? then error else Rethrown(error)));
      GivesUpAtOnce(c, tries + [t], quit.value, timeoutMs, w.now);
      return;
    }
    if retryDeadline.None? {
      var armed := w.now + c.budgetMs;
      retryDeadline' := Some(if c.deadline.None? then armed else Min(armed, c.deadline.value));
    }
    assert Failing(c, tries + [t], naps, w.now, error, retryDeadline'.value, prevSleepMs);
    hide Sound, Limit, Failing;
    quit, sleptMs, rest := Pause(w, c, tries + [t], naps, error, retryDeadline'.value, prevSleepMs);
  }

  /** Everything promised when a call ends. */
  ghost predicate Ends(c: Call, tries: seq<Try>, naps: seq<Nap>, now: real, r: Outcome) {
    tries != [] && Sound(c, tries, naps, now) && Reports(tries, r) && GivesUpLate(c, tries, r, now)
  }

  /** The loop's measure: the retry window is opened once, and then runs out. */
  ghost predicate Nearer(before: Option<real>, start: real, after: Option<real>, now: real) {
    && after.Some?
    && (before.Some? ==> after == before && NanosLeft(before, now) < NanosLeft(before, start))
  }

  /** `retryTransientRpc`. */
  method RetryTransientRpc(w: World, budgetMs: real, deadline: Option<real>, nonRetryable: set<ErrorKind>)
    returns (r: Outcome, ghost tries: seq<Try>, ghost naps: seq<Nap>)
    requires w.Recorded()
    modifies w
    ensures w.tries == old(w.tries) + tries && w.naps == old(w.naps) + naps && w.Recorded()
    ensures Ends(Call(old(w.now), budgetMs, deadline, nonRetryable), tries, naps, w.now, r)
    ensures r.AbortedWhileAsleep? ==> w.Aborted()
  {
    var c := Call(w.now, budgetMs, deadline, nonRetryable);
    var retryDeadline: Option<real> := None;
    var prevSleepMs := POLL_INTERVAL_MS;
    tries, naps := [], [];
    assert Head(c, tries, naps, w.now, retryDeadline, prevSleepMs);
    hide Head, Ends, NanosLeft;
    while true
      invariant w.tries == old(w.tries) + tries && w.naps == old(w.naps) + naps && w.Recorded()
      invariant Head(c, tries, naps, w.now, retryDeadline, prevSleepMs)
      decreases retryDeadline.None?, NanosLeft(retryDeadline, w.now)
    {
      var quit;
      ghost var t, rest;
      quit, retryDeadline, prevSleepMs, t, rest := Round(w, c, retryDeadline, prevSleepMs, tries, naps);
      Regroup(old(w.tries), tries, [t]);
      Regroup(old(w.naps), naps, rest);
      tries, naps := tries + [t], naps + rest;
      if quit.Some? {
        r := quit.value;
        return;
      }
    }
  }

  /** A failure that is not retryable ends the call; so does one on a deadline that has passed. */
  lemma {:induction false} GivesUpAtOnce(c: Call, tries: seq<Try>, r: Outcome, timeoutMs: Option<real>, now: real)
    requires tries != [] && r.Threw? && now >= c.start
    requires timeoutMs.None? ==> ResolveAttemptTimeoutMs(c.budgetMs, c.deadline, c.start, None).None?
    requires timeoutMs.None? || !MayRetry(c, r.error)
    ensures GivesUpLate(c, tries, r, now)
  {
  }
}
