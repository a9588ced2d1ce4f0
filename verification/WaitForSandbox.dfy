/**
 Waiting for a sandbox to reach a status (wait.ts), over RetryTransient.

 An unbounded wait has no clock of its own to stop it, so `unboundedPolls` cuts it off
 after an arbitrary number of polls; a bounded wait is proved never to need that.
 */
module WaitForSandbox {
  import opened Reals
  import opened Sequences
  import opened Wrappers
  import opened Worlds
  import opened RetryTransient

  const NOT_FOUND_AFTER_STOP_RETRY_MS := 2_000.0
  const EXIT_CODE_GRACE_POLLS := 2
  const EXIT_CODE_GRACE_POLL_INTERVAL_MS := 2_000.0
  const EXIT_CODE_GRACE_RPC_TIMEOUT_MS := 2_000.0
  const STARTUP_POLL_WINDOW_MS := 15_000.0
  const STARTUP_POLL_MAX_INTERVAL_MS := 500.0

  datatype Target = Terminal | Exactly(status: Status)

  datatype Options = Options(
    target: Target, retryNotFoundAfterStop: bool, startupPollStartedAt: Option<real>)

  datatype PollResult = Got(info: Info) | Expired | Raised(error: Error) | Interrupted

  /** One round's poll: the burst of tries it made, when its answer was in, and what it was. */
  datatype Poll = Poll(
    start: real, tries: seq<Try>, naps: seq<Nap>, outcome: Option<Outcome>, at: real, result: PollResult)

  datatype Result =
    | Reached | TimedOut | TerminalStateUnavailable | FailedToStart | WasTerminated
    | WrongTerminal(status: Status) | Threw(error: Error) | Aborted | StillPolling

  predicate IsTerminal(status: Status) {
    status in {Completed, Failed, Terminated}
  }

  /** `isWaitTargetReached`. */
  predicate TargetReached(status: Option<Status>, target: Target) {
    match status
    case None => false
    case Some(s) =>
      match target
      case Terminal => IsTerminal(s)
      case Exactly(t) => if t == Running then s in {Running, Paused} else s == t
  }

  /** The statuses on which a wait returns normally. */
  predicate Satisfies(status: Option<Status>, target: Target) {
    TargetReached(status, target) || (target == Exactly(Running) && status == Some(Completed))
  }

  /** The statuses on which a wait goes on. */
  predicate GoesOn(status: Option<Status>, target: Target) {
    && !Satisfies(status, target)
    && (target == Exactly(Running) ==> status != Some(Failed) && status != Some(Terminated))
    && (target != Exactly(Running) && target != Terminal ==> !(status.Some? && IsTerminal(status.value)))
  }

  /** An unspecified status is read as completed. */
  function Remap(info: Info): Info {
    if info.status == Some(Unspecified) then info.(status := Some(Completed)) else info
  }

  function StartupPollSleepMs(intervalMs: real, status: Option<Status>, options: Options, now: real): real {
    if && options.startupPollStartedAt.Some?
       && status in {Some(Pending), Some(Creating)}
       && now - options.startupPollStartedAt.value < STARTUP_POLL_WINDOW_MS
    then Min(intervalMs, STARTUP_POLL_MAX_INTERVAL_MS)
    else intervalMs
  }

  function NextPollIntervalMs(intervalMs: real): real {
    Min(intervalMs * BACKOFF_FACTOR, MAX_POLL_INTERVAL_MS)
  }

  /** The interval after the i-th round: 200 ms, growing by half to two seconds. */
  ghost function IntervalAt(i: nat): real {
    if i == 0 then POLL_INTERVAL_MS else NextPollIntervalMs(IntervalAt(i - 1))
  }

  lemma {:induction false} IntervalGrows(i: nat)
    ensures IntervalAt(i + 1) == NextPollIntervalMs(IntervalAt(i)) && IntervalAt(i) >= POLL_INTERVAL_MS
    ensures NextPollIntervalMs(IntervalAt(i)) >= POLL_INTERVAL_MS
  {
    if i > 0 {
      IntervalGrows(i - 1);
    }
  }

  /** What is left of an interval before the deadline. */
  function ByDeadline(sleepMs: real, deadline: Option<real>, now: real): real {
    if deadline.None? then sleepMs else Min(sleepMs, deadline.value - now)
  }

  predicate ShouldGraceRepoll(info: Info, options: Options) {
    !options.retryNotFoundAfterStop && info.status == Some(Completed) && info.exitCode.None?
  }

  /** The clock never passes the deadline, unless it had passed already. */
  ghost predicate InTime(start: real, now: real, deadline: Option<real>) {
    start <= now && (deadline.Some? ==> now <= Max(start, deadline.value))
  }

  /** No attempt is given more time than is left. */
  ghost predicate TriesInTime(tries: seq<Try>, deadline: Option<real>) {
    deadline.Some? ==> forall t <- tries :: t.start + t.timeoutMs <= deadline.value
  }

  ghost predicate NapsInTime(naps: seq<Nap>, deadline: Option<real>) {
    deadline.Some? ==> forall n <- naps :: n.start + n.durationMs <= deadline.value
  }

  predicate Passed(deadline: Option<real>, now: real) {
    deadline.Some? && now >= deadline.value
  }

  /** What a burst comes to: the deadline wins over an error. */
  function ResultOf(outcome: Outcome, at: real, deadline: Option<real>): PollResult {
    match outcome
    case Value(info) => Got(info)
    case Threw(error) => if Passed(deadline, at) then Expired else Raised(error)
    case AbortedWhileAsleep => if Passed(deadline, at) then Expired else Interrupted
  }

  /** A poll is one burst of tries, and none when the deadline has passed already. */
  ghost predicate PollOk(poll: Poll, deadline: Option<real>) {
    if Passed(deadline, poll.start) then
      poll.tries == [] && poll.naps == [] && poll.at == poll.start && poll.result == Expired
    else
      && poll.outcome.Some?
      && Ends(Call(poll.start, POLL_RETRY_BUDGET_MS, deadline, {}), poll.tries, poll.naps, poll.at, poll.outcome.value)
      && poll.result == ResultOf(poll.outcome.value, poll.at, deadline)
  }

  /** `getStatusForWait`. */
  method GetStatusForWait(w: World, deadline: Option<real>) returns (r: PollResult, ghost poll: Poll)
    requires w.Recorded()
    modifies w
    ensures w.Recorded() && w.tries == old(w.tries) + poll.tries && w.naps == old(w.naps) + poll.naps
    ensures poll.start == old(w.now) && poll.at == w.now && poll.result == r && PollOk(poll, deadline)
    ensures InTime(old(w.now), w.now, deadline)
    ensures TriesInTime(poll.tries, deadline) && NapsInTime(poll.naps, deadline)
    ensures r.Expired? ==> Passed(deadline, w.now)
    ensures r.Interrupted? ==> w.Aborted()
    ensures Passed(deadline, old(w.now)) ==> r.Expired?
  {
    ghost var start := w.now;
    if deadline.Some? && w.now >= deadline.value {
      return Expired, Poll(start, [], [], None, start, Expired);
    }
    ghost var c := Call(start, POLL_RETRY_BUDGET_MS, deadline, {});
    var outcome;
    ghost var tries, naps;
    outcome, tries, naps := RetryTransientRpc(w, POLL_RETRY_BUDGET_MS, deadline, {});
    BurstInTime(c, tries, naps, w.now);
    match outcome {
      case Value(info) => r := Got(info);
      case Threw(error) =>
        r := if deadline.Some? && w.now >= deadline.value then Expired else Raised(error);
      case AbortedWhileAsleep =>
        r := if deadline.Some? && w.now >= deadline.value then Expired else Interrupted;
    }
    poll := Poll(start, tries, naps, Some(outcome), w.now, r);
  }

  lemma {:induction false} BurstInTime(c: Call, tries: seq<Try>, naps: seq<Nap>, now: real)
    requires Promised(c, tries, naps, now)
    requires c.budgetMs == POLL_RETRY_BUDGET_MS
    requires c.deadline.Some? ==> c.start < c.deadline.value
    ensures InTime(c.start, now, c.deadline)
    ensures TriesInTime(tries, c.deadline) && NapsInTime(naps, c.deadline)
  {
  }

  /** The replies that still say completed, in order. */
  ghost function CompletedReplies(tries: seq<Try>): seq<Info> {
    if tries == [] then []
    else
      var before, last := CompletedReplies(tries[..|tries| - 1]), tries[|tries| - 1].reply;
      if last.Ok? && Remap(last.info).status == Some(Completed) then before + [Remap(last.info)] else before
  }

  /** The last reply that still says completed, or else what was known before. */
  ghost function Latest(result: Info, gets: seq<Try>): Info {
    var replies := CompletedReplies(gets);
    if replies == [] then result else replies[|replies| - 1]
  }

  /** Why no further Get is made: an exit code, two Gets, a failed one, or the deadline. */
  ghost predicate EnoughGets(current: Info, options: Options, gets: seq<Try>, deadline: Option<real>, now: real) {
    || !ShouldGraceRepoll(current, options)
    || |gets| == EXIT_CODE_GRACE_POLLS
    || (gets != [] && gets[|gets| - 1].reply.Err?)
    || (deadline.Some? && now >= deadline.value)
  }

  /** Each further Get comes two seconds after the last answer, and has two seconds, or what is left of them. */
  ghost predicate GetsPaced(gets: seq<Try>, since: real, deadline: Option<real>) {
    forall i | 0 <= i < |gets| :: GetAt(gets, i, since, deadline)
  }

  ghost predicate GetAt(gets: seq<Try>, i: nat, since: real, deadline: Option<real>)
    requires i < |gets|
  {
    && gets[i].start == (if i == 0 then since else gets[i - 1].end) + EXIT_CODE_GRACE_POLL_INTERVAL_MS
    && gets[i].timeoutMs == ByDeadline(EXIT_CODE_GRACE_RPC_TIMEOUT_MS, deadline, gets[i].start)
  }

  lemma {:induction false} GetsPacedMore(gets: seq<Try>, t: Try, since: real, deadline: Option<real>)
    requires GetsPaced(gets, since, deadline)
    requires t.start == (if gets == [] then since else gets[|gets| - 1].end) + EXIT_CODE_GRACE_POLL_INTERVAL_MS
    requires t.timeoutMs == ByDeadline(EXIT_CODE_GRACE_RPC_TIMEOUT_MS, deadline, t.start)
    ensures GetsPaced(gets + [t], since, deadline)
  {
    var all := gets + [t];
    forall i | 0 <= i < |all| ensures GetAt(all, i, since, deadline) {
      assert i < |gets| ==> GetAt(gets, i, since, deadline);
    }
  }

  lemma {:induction false} OneMoreGet(result: Info, gets: seq<Try>, t: Try)
    ensures Latest(result, gets + [t]) ==
      if t.reply.Ok? && Remap(t.reply.info).status == Some(Completed) then Remap(t.reply.info) else Latest(result, gets)
  {
    assert (gets + [t])[..|gets|] == gets;
  }

  /** `graceRepollForExitCode`: at most two more Gets for a late exit code; never changes the status. */
  method GraceRepoll(w: World, result: Info, options: Options, deadline: Option<real>)
    returns (current: Info, aborted: bool, ghost gets: seq<Try>)
    requires (deadline.Some? ==> w.now <= deadline.value) && w.Recorded()
    modifies w
    ensures w.Recorded() && InTime(old(w.now), w.now, deadline)
    ensures w.tries == old(w.tries) + gets && old(w.naps) <= w.naps && |gets| <= EXIT_CODE_GRACE_POLLS
    ensures TriesInTime(gets, deadline) && NapsInTime(w.naps[|old(w.naps)|..], deadline)
    ensures current == Latest(result, gets) && current.status == result.status
    ensures !ShouldGraceRepoll(result, options) ==> gets == [] && w.now == old(w.now) && !aborted
    ensures !aborted ==> EnoughGets(current, options, gets, deadline, w.now)
    ensures aborted ==> w.Aborted()
    ensures GetsPaced(gets, old(w.now), deadline)
  {
    current, gets := result, [];
    assert w.naps[|w.naps|..] == [] && w.tries == w.tries + [];
    if !ShouldGraceRepoll(result, options) {
      return current, false, gets;
    }
    var attempt := 0;
    while attempt < EXIT_CODE_GRACE_POLLS
      invariant 0 <= attempt == |gets| <= EXIT_CODE_GRACE_POLLS
      invariant old(w.now) <= w.now && (deadline.Some? ==> w.now <= deadline.value)
      invariant w.tries == old(w.tries) + gets && old(w.naps) <= w.naps && w.Recorded()
      invariant TriesInTime(gets, deadline)
      invariant NapsInTime(w.naps[|old(w.naps)|..], deadline)
      invariant current == Latest(result, gets) && current.status == Some(Completed)
      invariant GetsPaced(gets, old(w.now), deadline)
      invariant w.now == if gets == [] then old(w.now) else gets[|gets| - 1].end
    {
      if w.Aborted() {
        return current, true, gets;
      }
      if !ShouldGraceRepoll(current, options) {
        return current, false, gets;
      }
      hide InTime, Latest, TriesInTime, NapsInTime, GetsPaced;
      ghost var naps := w.naps;
      var reply, cut;
      ghost var t;
      reply, cut, t := GraceGet(w, deadline);
      NapsInTimeAppend(old(w.naps), naps, w.naps, deadline);
      if reply.None? {
        return current, cut, gets;
      }
      OneMoreGet(result, gets, t);
      TryInTime(gets, t, deadline);
      GetsPacedMore(gets, t, old(w.now), deadline);
      Regroup(old(w.tries), gets, [t]);
      gets := gets + [t];
      if reply.value.Err? {
        return current, false, gets;
      }
      if Remap(reply.value.info).status == Some(Completed) {
        current := Remap(reply.value.info);
      }
      attempt := attempt + 1;
    }
    return current, false, gets;
  }

  lemma TryInTime(tries: seq<Try>, t: Try, deadline: Option<real>)
    requires TriesInTime(tries, deadline) && (deadline.Some? ==> t.start + t.timeoutMs <= deadline.value)
    ensures TriesInTime(tries + [t], deadline)
  {
  }

  /** A pause and a Get, unless the deadline or the signal comes first. */
  method GraceGet(w: World, deadline: Option<real>) returns (reply: Option<Reply>, cut: bool, ghost t: Try)
    requires (deadline.Some? ==> w.now <= deadline.value) && w.Recorded()
    modifies w
    ensures w.Recorded() && old(w.now) <= w.now && (deadline.Some? ==> w.now <= deadline.value)
    ensures old(w.naps) <= w.naps && NapsInTime(w.naps[|old(w.naps)|..], deadline)
    ensures w.tries == old(w.tries) + if reply.Some? then [t] else []
    ensures cut ==> reply.None? && w.Aborted()
    ensures reply.None? && !cut ==> deadline.Some? && w.now >= deadline.value
    ensures reply.Some? ==>
      && t.start == old(w.now) + EXIT_CODE_GRACE_POLL_INTERVAL_MS
      && t.timeoutMs == ByDeadline(EXIT_CODE_GRACE_RPC_TIMEOUT_MS, deadline, t.start)
      && t.reply == reply.value && t.end == w.now
      && (deadline.Some? ==> t.start + t.timeoutMs <= deadline.value)
  {
    t := Try(w.now, 0.0, w.now, w.replies(0));
    var go;
    go, cut := GracePause(w, deadline);
    hide NapsInTime;
    if !go {
      return None, cut, t;
    }
    var answer := w.Attempt(
      if deadline.None? then EXIT_CODE_GRACE_RPC_TIMEOUT_MS
      else Min(EXIT_CODE_GRACE_RPC_TIMEOUT_MS, deadline.value - w.now));
    return Some(answer), false, w.tries[|w.tries| - 1];
  }

  /** The pause before a grace Get; `go` unless the deadline has come. */
  method GracePause(w: World, deadline: Option<real>) returns (go: bool, cut: bool)
    requires deadline.Some? ==> w.now <= deadline.value
    modifies w`now, w`naps
    ensures old(w.now) <= w.now && (deadline.Some? ==> w.now <= deadline.value)
    ensures old(w.naps) <= w.naps
    ensures NapsInTime(w.naps[|old(w.naps)|..], deadline)
    ensures cut ==> w.Aborted()
    ensures !cut && !go ==> deadline.Some? && w.now >= deadline.value
    ensures go ==> !cut && w.now == old(w.now) + EXIT_CODE_GRACE_POLL_INTERVAL_MS
    ensures go && deadline.Some? ==> w.now < deadline.value
  {
    var sleepMs := EXIT_CODE_GRACE_POLL_INTERVAL_MS;
    assert w.naps[|w.naps|..] == [];
    if deadline.Some? {
      if deadline.value - w.now <= 0.0 {
        return false, false;
      }
      sleepMs := Min(sleepMs, deadline.value - w.now);
    }
    cut := w.Sleep(sleepMs);
    assert w.naps[|old(w.naps)|..] == [w.naps[|w.naps| - 1]];
    if cut || (deadline.Some? && w.now >= deadline.value) {
      return false, cut;
    }
    return !w.Aborted(), w.Aborted();
  }

  // ----- What a whole wait promises ------------------------------------------

  /** A poll after which the loop goes round again. */
  ghost predicate GoesOnAfter(poll: Poll, options: Options) {
    match poll.result
    case Got(info) => GoesOn(Remap(info).status, options.target)
    case Raised(error) => IsNotFound(poll.result) && options.retryNotFoundAfterStop
    case Expired => false
    case Interrupted => false
  }

  predicate IsNotFound(r: PollResult) {
    r.Raised? && r.error.kind == NotFound
  }

  /** A wait goes on through every poll but its last. */
  ghost predicate AllGoOn(polls: seq<Poll>, options: Options) {
    forall p <- polls :: GoesOnAfter(p, options)
  }

  /** The polls from `j` on all found nothing, and they span at least two seconds. */
  ghost predicate NotFoundRun(polls: seq<Poll>, j: int) {
    && 0 <= j < |polls|
    && (forall i | j <= i < |polls| :: IsNotFound(polls[i].result))
  }

  ghost predicate LongNotFoundRun(polls: seq<Poll>) {
    exists j :: NotFoundRun(polls, j)
      && polls[|polls| - 1].at - polls[j].at >= NOT_FOUND_AFTER_STOP_RETRY_MS
  }

  /** The pause after a round: the interval, shortened by startup, the deadline or the end of the two seconds. */
  ghost predicate PausesFor(poll: Poll, pauseMs: real, intervalMs: real, options: Options, deadline: Option<real>) {
    match poll.result
    case Got(info) =>
      pauseMs == ByDeadline(StartupPollSleepMs(intervalMs, Remap(info).status, options, poll.at), deadline, poll.at)
    case Raised(_) => 0.0 < pauseMs <= ByDeadline(intervalMs, deadline, poll.at)
    case Expired => false
    case Interrupted => false
  }

  /** When the i-th round starts: at once, or when the pause before it is over. */
  ghost function StartAt(polls: seq<Poll>, pauses: seq<real>, start: real, i: nat): real
    requires i <= |polls| && i <= |pauses|
  {
    if i == 0 then start else polls[i - 1].at + pauses[i - 1]
  }

  /** Every round starts on time, and its poll is what its burst of tries came to. */
  ghost predicate Timely(polls: seq<Poll>, pauses: seq<real>, start: real, deadline: Option<real>) {
    && |pauses| <= |polls| <= |pauses| + 1
    && forall i | 0 <= i < |polls| :: PollAt(polls, pauses, i, start, deadline)
  }

  ghost predicate PollAt(polls: seq<Poll>, pauses: seq<real>, i: nat, start: real, deadline: Option<real>)
    requires i < |polls| && i <= |pauses|
  {
    PollOk(polls[i], deadline) && polls[i].start == StartAt(polls, pauses, start, i)
  }

  /** The pauses back off, whatever each round found. */
  ghost predicate BacksOff(polls: seq<Poll>, pauses: seq<real>, options: Options, deadline: Option<real>) {
    && |pauses| <= |polls| <= |pauses| + 1
    && forall i | 0 <= i < |pauses| :: PausesFor(polls[i], pauses[i], IntervalAt(i), options, deadline)
  }

  lemma {:induction false} BacksOffMore(polls: seq<Poll>, pauses: seq<real>, options: Options, deadline: Option<real>,
                                        poll: Poll, pauseMs: real)
    requires BacksOff(polls, pauses, options, deadline) && |polls| == |pauses|
    ensures BacksOff(polls + [poll], pauses, options, deadline)
    ensures PausesFor(poll, pauseMs, IntervalAt(|polls|), options, deadline) ==>
      BacksOff(polls + [poll], pauses + [pauseMs], options, deadline)
  {
  }

  lemma {:induction false} TimelyMore(polls: seq<Poll>, pauses: seq<real>, start: real, deadline: Option<real>,
                                      poll: Poll, pauseMs: real)
    requires Timely(polls, pauses, start, deadline) && |polls| == |pauses|
    requires PollOk(poll, deadline) && poll.start == StartAt(polls, pauses, start, |polls|)
    ensures Timely(polls + [poll], pauses, start, deadline)
    ensures Timely(polls + [poll], pauses + [pauseMs], start, deadline)
    ensures StartAt(polls + [poll], pauses + [pauseMs], start, |polls| + 1) == poll.at + pauseMs
  {
    hide PollOk;
    var all := polls + [poll];
    forall i | 0 <= i < |all|
      ensures PollAt(all, pauses, i, start, deadline) && PollAt(all, pauses + [pauseMs], i, start, deadline)
    {
      assert i < |polls| ==> PollAt(polls, pauses, i, start, deadline);
    }
  }

  /** All the tries of the polls, in order. */
  ghost function TriesOf(polls: seq<Poll>): seq<Try> {
    if polls == [] then [] else TriesOf(polls[..|polls| - 1]) + polls[|polls| - 1].tries
  }

  lemma {:induction false} TriesOfMore(polls: seq<Poll>, poll: Poll, deadline: Option<real>)
    ensures TriesOf(polls + [poll]) == TriesOf(polls) + poll.tries
    ensures TriesInTime(TriesOf(polls), deadline) && TriesInTime(poll.tries, deadline) ==>
      TriesInTime(TriesOf(polls + [poll]), deadline)
  {
  }

  /** What the polls have told the caller. */
  ghost function Observations(polls: seq<Poll>): seq<Info> {
    if polls == [] then [] else Observations(polls[..|polls| - 1]) + Observation(polls[|polls| - 1])
  }

  ghost function Observation(poll: Poll): seq<Info> {
    if poll.result.Got? then [Remap(poll.result.info)] else []
  }

  lemma {:induction false} ObservationsMore(polls: seq<Poll>, poll: Poll)
    ensures Observations(polls + [poll]) == Observations(polls) + Observation(poll)
  {
  }

  /** A normal return reports the last thing seen once more. */
  ghost function Reported(seen: seq<Info>, r: Option<Result>): seq<Info> {
    if r == Some(Reached) && seen != [] then seen + [seen[|seen| - 1]] else seen
  }

  lemma {:induction false} ReportedAfter(before: seq<Info>, seen: seq<Info>, r: Option<Result>)
    requires r == Some(Reached) ==> seen != []
    ensures Reported(before + seen, r) == before + Reported(seen, r)
  {
  }

  /** No status is ever reported as unspecified. */
  lemma {:induction false} ReportsAreReal(polls: seq<Poll>, gets: seq<Try>, r: Option<Result>)
    ensures forall info <- Reported(Observations(polls) + CompletedReplies(gets), r) :: info.status != Some(Unspecified)
  {
    if polls != [] {
      var before := polls[..|polls| - 1];
      ReportsAreReal(before, [], None);
      assert Observations(before) + CompletedReplies([]) == Observations(before);
    }
    StillCompleted(gets);
  }

  /** The last thing reported before a normal return is a status that satisfies the target. */
  lemma {:induction false} LastReportSatisfies(
      polls: seq<Poll>, gets: seq<Try>, options: Options, deadline: Option<real>, now: real)
    requires Verdict(Reached, polls, gets, options, deadline, now)
    ensures var reports := Reported(Observations(polls) + CompletedReplies(gets), Some(Reached));
      reports != [] && Satisfies(reports[|reports| - 1].status, options.target)
  {
    StillCompleted(gets);
    assert Observations(polls) == Observations(polls[..|polls| - 1]) + [Remap(Last(polls).result.info)];
  }

  lemma {:induction false} StillCompleted(gets: seq<Try>)
    ensures forall info <- CompletedReplies(gets) :: info.status == Some(Completed)
  {
    if gets != [] {
      StillCompleted(gets[..|gets| - 1]);
    }
  }

  /** The last poll found this status. */
  ghost predicate Found(polls: seq<Poll>, status: Option<Status>) {
    polls != [] && Last(polls).result.Got? && Remap(Last(polls).result.info).status == status
  }

  /**
   What the result says about the last poll, and what the last poll says about the result.
   Further Gets are made only once the last poll has satisfied the target.
   */
  ghost predicate Verdict(
      r: Result, polls: seq<Poll>, gets: seq<Try>, options: Options, deadline: Option<real>, now: real)
  {
    && (gets != [] ==>
         && r in {Reached, Aborted} && SatisfiedBy(polls, options)
         && ShouldGraceRepoll(Remap(Last(polls).result.info), options))
    && match r
       case Reached =>
         && SatisfiedBy(polls, options)
         && EnoughGets(Latest(Remap(Last(polls).result.info), gets), options, gets, deadline, now)
       case FailedToStart => options.target == Exactly(Running) && Found(polls, Some(Failed))
       case WasTerminated => options.target == Exactly(Running) && Found(polls, Some(Terminated))
       case WrongTerminal(s) =>
         && options.target != Exactly(Running) && options.target != Terminal && IsTerminal(s)
         && options.target != Exactly(s) && Found(polls, Some(s))
       case TimedOut =>
         && Passed(deadline, now) && polls != []
         && (Last(polls).result.Expired? || GoesOnAfter(Last(polls), options))
       case TerminalStateUnavailable => options.retryNotFoundAfterStop && LongNotFoundRun(polls)
       case Threw(error) =>
         && polls != [] && Last(polls).result == Raised(error)
         && (error.kind == NotFound ==> !options.retryNotFoundAfterStop)
       case Aborted =>
         polls == [] || Last(polls).result.Interrupted? || GoesOnAfter(Last(polls), options)
         || SatisfiedBy(polls, options)
       case StillPolling => deadline.None? && AllGoOn(polls, options)
  }

  ghost predicate SatisfiedBy(polls: seq<Poll>, options: Options) {
    polls != [] && Last(polls).result.Got? && Satisfies(Remap(Last(polls).result.info).status, options.target)
  }

  ghost function Last(polls: seq<Poll>): Poll
    requires polls != []
  {
    polls[|polls| - 1]
  }

  /** `n` rounds take at least 200 ms each, but for one that ends at the deadline. */
  ghost predicate Spaced(n: int, since: real, now: real, deadline: Option<real>) {
    || POLL_INTERVAL_MS * n as real <= now - since
    || (deadline.Some? && now >= deadline.value && POLL_INTERVAL_MS * (n - 1) as real <= now - since)
  }

  ghost predicate NotFoundAt(polls: seq<Poll>, k: int) {
    0 <= k < |polls| && IsNotFound(polls[k].result)
  }

  /** Polls `j` to `i` found nothing, and the one before them, if any, did not. */
  ghost predicate RunAt(polls: seq<Poll>, j: int, i: int) {
    0 <= j <= i && !NotFoundAt(polls, j - 1) && forall k | j <= k <= i :: NotFoundAt(polls, k)
  }

  /** `run` is where the not-found run at the end begins, if the polls end in one. */
  ghost predicate RunKnown(polls: seq<Poll>, run: Option<int>) {
    match run
    case None => !NotFoundAt(polls, |polls| - 1)
    case Some(j) => RunAt(polls, j, |polls| - 1)
  }

  lemma {:induction false} RunKnownMore(polls: seq<Poll>, run: Option<int>)
    requires polls != [] && RunKnown(polls[..|polls| - 1], run) && IsNotFound(Last(polls).result)
    ensures RunAt(polls, RunStart(polls, run), |polls| - 1)
  {
    var before, n := polls[..|polls| - 1], |polls| - 1;
    assert forall k | k < n :: NotFoundAt(polls, k) == NotFoundAt(before, k);
    assert NotFoundAt(polls, n);
    hide NotFoundAt;
  }

  /** A not-found run has two seconds from its first answer: it goes on only within them, and no pause outlasts them. */
  ghost predicate Graced(polls: seq<Poll>, pauses: seq<real>, deadline: Option<real>) {
    |pauses| <= |polls| && forall i | 0 <= i < |pauses| :: GraceAt(polls, pauses, i, deadline)
  }

  ghost predicate GraceAt(polls: seq<Poll>, pauses: seq<real>, i: nat, deadline: Option<real>)
    requires i < |pauses| <= |polls|
  {
    forall j | RunAt(polls, j, i) ::
      GracePauseIs(pauses[i], IntervalAt(i), deadline, polls[i].at, polls[j].at + NOT_FOUND_AFTER_STOP_RETRY_MS)
  }

  ghost predicate GracePauseIs(pauseMs: real, intervalMs: real, deadline: Option<real>, now: real, graceEnd: real) {
    now < graceEnd && pauseMs == Min(ByDeadline(intervalMs, deadline, now), graceEnd - now)
  }

  /** The last poll found nothing, two seconds or more after the first of its run. */
  ghost predicate OutOfGrace(polls: seq<Poll>) {
    exists j | RunAt(polls, j, |polls| - 1) ::
      polls[|polls| - 1].at >= polls[j].at + NOT_FOUND_AFTER_STOP_RETRY_MS
  }

  lemma {:induction false} OutOfGraceIff(polls: seq<Poll>, j: int)
    requires RunAt(polls, j, |polls| - 1)
    ensures 0 <= j < |polls|
    ensures OutOfGrace(polls) <==> polls[|polls| - 1].at >= polls[j].at + NOT_FOUND_AFTER_STOP_RETRY_MS
  {
    hide NotFoundAt;
    var i := |polls| - 1;
    assert NotFoundAt(polls, i);
    forall k {:trigger RunAt(polls, k, i)} | RunAt(polls, k, i) ensures k == j {
    }
  }

  lemma {:induction false} FoundIsInGrace(polls: seq<Poll>)
    requires polls != [] && !IsNotFound(Last(polls).result)
    ensures !OutOfGrace(polls)
  {
    assert !NotFoundAt(polls, |polls| - 1);
  }

  lemma {:induction false} GracedIsInGrace(polls: seq<Poll>, pauses: seq<real>, deadline: Option<real>)
    requires Graced(polls, pauses, deadline) && |pauses| == |polls|
    ensures !OutOfGrace(polls)
  {
    if polls != [] {
      assert GraceAt(polls, pauses, |polls| - 1, deadline);
    }
    hide NotFoundAt, IntervalAt;
  }

  lemma {:induction false} GracedMore(polls: seq<Poll>, pauses: seq<real>, deadline: Option<real>, poll: Poll,
                                      pauseMs: real, run: Option<int>)
    requires Graced(polls, pauses, deadline) && |pauses| == |polls|
    ensures Graced(polls + [poll], pauses, deadline)
    ensures RunKnown(polls + [poll], run) && (run.Some? ==> GracePauseIs(
        pauseMs, IntervalAt(|polls|), deadline, poll.at,
        (polls + [poll])[run.value].at + NOT_FOUND_AFTER_STOP_RETRY_MS)) ==>
      Graced(polls + [poll], pauses + [pauseMs], deadline)
  {
    hide GraceAt, RunKnown, GracePauseIs, IntervalAt;
    var all, more := polls + [poll], pauses + [pauseMs];
    forall i | 0 <= i < |pauses| ensures GraceAt(all, pauses, i, deadline) && GraceAt(all, more, i, deadline) {
      GraceStays(polls, pauses, i, deadline, poll, pauseMs);
    }
    GraceOfLast(all, more, deadline, run);
  }

  lemma {:induction false} GraceStays(polls: seq<Poll>, pauses: seq<real>, i: nat, deadline: Option<real>, poll: Poll,
                                      pauseMs: real)
    requires i < |pauses| == |polls| && GraceAt(polls, pauses, i, deadline)
    ensures GraceAt(polls + [poll], pauses, i, deadline) && GraceAt(polls + [poll], pauses + [pauseMs], i, deadline)
  {
    hide GracePauseIs, IntervalAt;
    var all := polls + [poll];
    forall j | RunAt(all, j, i) ensures RunAt(polls, j, i) {
      assert forall k | k <= i :: NotFoundAt(polls, k) == NotFoundAt(all, k);
    }
    hide RunAt;
  }

  lemma {:induction false} GraceOfLast(polls: seq<Poll>, pauses: seq<real>, deadline: Option<real>, run: Option<int>)
    requires |pauses| == |polls| > 0
    ensures RunKnown(polls, run) && (run.Some? ==> GracePauseIs(
        pauses[|polls| - 1], IntervalAt(|polls| - 1), deadline, polls[|polls| - 1].at,
        polls[run.value].at + NOT_FOUND_AFTER_STOP_RETRY_MS)) ==>
      GraceAt(polls, pauses, |polls| - 1, deadline)
  {
    hide GracePauseIs, IntervalAt, NotFoundAt;
    var i := |polls| - 1;
    if RunKnown(polls, run) {
      forall j | RunAt(polls, j, i) ensures run == Some(j) {
        assert NotFoundAt(polls, i);
      }
    }
  }

  /** The loop between two rounds; `run` is where the current not-found run began, if there is one. */
  ghost predicate AtHead(
      polls: seq<Poll>, run: Option<int>, notFoundDeadline: Option<real>,
      start: real, now: real, options: Options, deadline: Option<real>)
  {
    && InTime(start, now, deadline)
    && AllGoOn(polls, options)
    && Spaced(|polls|, start, now, deadline)
    && (run.Some? <==> notFoundDeadline.Some?)
    && RunKnown(polls, run)
    && (run.Some? ==>
      && NotFoundRun(polls, run.value)
      && notFoundDeadline.value == polls[run.value].at + NOT_FOUND_AFTER_STOP_RETRY_MS
      && polls[|polls| - 1].at <= now
      && start <= polls[run.value].at
      && POLL_INTERVAL_MS * run.value as real <= polls[run.value].at - start
      && Spaced(|polls| - run.value, polls[run.value].at, now, deadline))
  }

  /** The round so far: the loop was at its head at `before`, and the last poll has just been answered. */
  ghost predicate Answered(
      polls: seq<Poll>, run: Option<int>, notFoundDeadline: Option<real>,
      start: real, before: real, now: real, options: Options, deadline: Option<real>)
  {
    && polls != []
    && AtHead(polls[..|polls| - 1], run, notFoundDeadline, start, before, options, deadline)
    && before <= now && Last(polls).at == now && InTime(start, now, deadline)
    && (deadline.Some? && before >= deadline.value ==> Last(polls).result.Expired?)
  }

  /** Back at the head with no not-found run, after a pause of at least 200 ms or up to the deadline. */
  lemma {:induction false} HeadAfterStatus(
      polls: seq<Poll>, run: Option<int>, notFoundDeadline: Option<real>, start: real, before: real,
      mid: real, later: real, options: Options, deadline: Option<real>)
    requires Answered(polls, run, notFoundDeadline, start, before, mid, options, deadline)
    requires Last(polls).result.Got? && GoesOnAfter(Last(polls), options)
    requires later >= mid + POLL_INTERVAL_MS || (deadline.Some? && later == deadline.value)
    requires InTime(start, later, deadline) && later >= mid
    ensures AtHead(polls, None, None, start, later, options, deadline)
  {
  }

  lemma {:induction false} AllButLast(polls: seq<Poll>, options: Options)
    requires polls != [] && AllGoOn(polls[..|polls| - 1], options) && GoesOnAfter(Last(polls), options)
    ensures AllGoOn(polls, options)
  {
  }

  /** Where the current not-found run began, given that the last poll found nothing. */
  ghost function RunStart(polls: seq<Poll>, run: Option<int>): int {
    if run.Some? then run.value else |polls| - 1
  }

  lemma {:induction false} RunGrows(
      polls: seq<Poll>, run: Option<int>, notFoundDeadline: Option<real>, start: real, before: real,
      mid: real, options: Options, deadline: Option<real>)
    requires Answered(polls, run, notFoundDeadline, start, before, mid, options, deadline)
    requires IsNotFound(Last(polls).result)
    ensures NotFoundRun(polls, RunStart(polls, run)) && RunAt(polls, RunStart(polls, run), |polls| - 1)
    ensures var j := RunStart(polls, run);
      && start <= polls[j].at <= mid
      && POLL_INTERVAL_MS * j as real <= polls[j].at - start
      && POLL_INTERVAL_MS * (|polls| - 1 - j) as real <= mid - polls[j].at
      && (notFoundDeadline.Some? ==> notFoundDeadline.value == polls[j].at + NOT_FOUND_AFTER_STOP_RETRY_MS)
      && (notFoundDeadline.None? ==> polls[j].at == mid)
  {
    RunKnownMore(polls, run);
    hide RunAt, RunKnown;
  }

  /** Back at the head inside a not-found run. */
  lemma {:induction false} HeadAfterNotFound(
      polls: seq<Poll>, j: int, start: real, mid: real, later: real, options: Options, deadline: Option<real>)
    requires AllGoOn(polls, options) && NotFoundRun(polls, j) && RunAt(polls, j, |polls| - 1)
    requires start <= polls[j].at <= mid && Last(polls).at == mid
    requires POLL_INTERVAL_MS * j as real <= polls[j].at - start
    requires POLL_INTERVAL_MS * (|polls| - 1 - j) as real <= mid - polls[j].at
    requires mid < polls[j].at + NOT_FOUND_AFTER_STOP_RETRY_MS
    requires InTime(start, later, deadline) && later >= mid
    requires || later >= mid + POLL_INTERVAL_MS
             || later == polls[j].at + NOT_FOUND_AFTER_STOP_RETRY_MS
             || (deadline.Some? && later == deadline.value)
    ensures AtHead(polls, Some(j), Some(polls[j].at + NOT_FOUND_AFTER_STOP_RETRY_MS), start, later, options, deadline)
  {
  }

  /** The catch of a stop-owned wait: give up after two seconds of not-found, else pause. */
  method AfterNotFound(
      w: World, options: Options, deadline: Option<real>, armed: Option<real>, intervalMs: real,
      ghost polls: seq<Poll>, ghost run: Option<int>, ghost start: real, ghost before: real)
    returns (quit: Option<Result>, notFoundDeadline: real, pauseMs: real)
    requires Answered(polls, run, armed, start, before, w.now, options, deadline)
    requires IsNotFound(Last(polls).result) && options.retryNotFoundAfterStop
    requires intervalMs >= POLL_INTERVAL_MS
    modifies w`now, w`naps
    ensures InTime(start, w.now, deadline)
    ensures old(w.naps) <= w.naps && NapsInTime(w.naps[|old(w.naps)|..], deadline)
    ensures quit.Some? ==> quit.value in {TimedOut, TerminalStateUnavailable, Aborted}
    ensures quit.Some? ==> Verdict(quit.value, polls, [], options, deadline, w.now)
    ensures quit == Some(Aborted) ==> w.Aborted()
    ensures quit == Some(TerminalStateUnavailable) <==> OutOfGrace(polls)
    ensures quit.None? ==>
      AtHead(polls, Some(RunStart(polls, run)), Some(notFoundDeadline), start, w.now, options, deadline)
    ensures quit.None? ==>
      && pauseMs == Min(ByDeadline(intervalMs, deadline, old(w.now)), notFoundDeadline - old(w.now))
      && pauseMs > 0.0 && w.now == old(w.now) + pauseMs
  {
    pauseMs := 0.0;
    ghost var j := RunStart(polls, run);
    RunGrows(polls, run, armed, start, before, w.now, options, deadline);
    OutOfGraceIff(polls, j);
    hide OutOfGrace, RunAt;
    AllButLast(polls, options);
    var current := w.now;
    notFoundDeadline := if armed.None? then current + NOT_FOUND_AFTER_STOP_RETRY_MS else armed.value;
    if current >= notFoundDeadline {
      assert NotFoundRun(polls, j);
      return Some(TerminalStateUnavailable), notFoundDeadline, 0.0;
    }
    var remaining := if deadline.None? then notFoundDeadline - current
                     else Min(notFoundDeadline - current, deadline.value - current);
    if remaining <= 0.0 {
      return Some(TimedOut), notFoundDeadline, 0.0;
    }
    pauseMs := Min(intervalMs, remaining);
    var cut := w.Sleep(pauseMs);
    assert w.naps[|old(w.naps)|..] == [w.naps[|w.naps| - 1]];
    if cut {
      return Some(Aborted), notFoundDeadline, pauseMs;
    }
    HeadAfterNotFound(polls, j, start, current, w.now, options, deadline);
    return None, notFoundDeadline, pauseMs;
  }

  /** What a found status means for a wait, status by status; nothing when the wait goes on. */
  ghost function Decision(target: Target, found: Option<Status>): Option<Result> {
    match target
    case Terminal =>
      if found in {Some(Completed), Some(Status.Failed), Some(Terminated), Some(Unspecified)} then Some(Reached)
      else None
    case Exactly(Running) =>
      if found in {Some(Running), Some(Paused), Some(Completed), Some(Unspecified)} then Some(Reached)
      else if found == Some(Status.Failed) then Some(FailedToStart)
      else if found == Some(Terminated) then Some(WasTerminated)
      else None
    case Exactly(t) =>
      if found == Some(t) && t != Unspecified then Some(Reached)
      else if found == Some(Unspecified) && t == Completed then Some(Reached)
      else if found in {Some(Completed), Some(Unspecified)} then Some(WrongTerminal(Completed))
      else if found == Some(Status.Failed) then Some(WrongTerminal(Status.Failed))
      else if found == Some(Terminated) then Some(WrongTerminal(Terminated))
      else None
  }

  /** What the loop does with an observed status: report it, then decide. */
  method Observe(w: World, options: Options, deadline: Option<real>, info: Info)
    returns (quit: Option<Result>, ghost gets: seq<Try>, ghost reports: seq<Info>)
    requires (deadline.Some? ==> w.now <= deadline.value) && w.Recorded()
    modifies w
    ensures w.Recorded() && InTime(old(w.now), w.now, deadline)
    ensures w.tries == old(w.tries) + gets && old(w.naps) <= w.naps
    ensures TriesInTime(gets, deadline) && NapsInTime(w.naps[|old(w.naps)|..], deadline)
    ensures reports == Reported([Remap(info)] + CompletedReplies(gets), quit)
    ensures quit == Decision(options.target, info.status)
            || (quit == Some(Aborted) && Decision(options.target, info.status) == Some(Reached))
    ensures quit.None? <==> GoesOn(Remap(info).status, options.target)
    ensures quit.None? ==> w.now == old(w.now)
    ensures gets != [] ==> Satisfies(Remap(info).status, options.target) && ShouldGraceRepoll(Remap(info), options)
    ensures match quit
      case None => true
      case Some(r) => DecidedBy(r, Remap(info).status, options.target)
    ensures quit == Some(Reached) ==> EnoughGets(Latest(Remap(info), gets), options, gets, deadline, w.now)
    ensures quit == Some(Aborted) ==> w.Aborted()
    ensures GetsPaced(gets, old(w.now), deadline)
  {
    var result := Remap(info);
    gets, reports := [], [result];
    assert w.naps[|w.naps|..] == [] && w.tries == w.tries + [] && [result] + [] == [result];
    if Satisfies(result.status, options.target) {
      var aborted;
      result, aborted, gets := GraceRepoll(w, result, options, deadline);
      reports := reports + CompletedReplies(gets);
      if aborted {
        return Some(Aborted), gets, reports;
      }
      reports := reports + [result];
      return Some(Reached), gets, reports;
    }
    if options.target == Exactly(Running) {
      if result.status == Some(Failed) {
        return Some(FailedToStart), gets, reports;
      }
      if result.status == Some(Terminated) {
        return Some(WasTerminated), gets, reports;
      }
    } else if options.target != Terminal && result.status.Some? && IsTerminal(result.status.value) {
      return Some(WrongTerminal(result.status.value)), gets, reports;
    }
    return None, gets, reports;
  }

  /** How an observed status decides the wait. */
  ghost predicate DecidedBy(r: Result, status: Option<Status>, target: Target) {
    match r
    case Reached => Satisfies(status, target)
    case Aborted => Satisfies(status, target)
    case FailedToStart => target == Exactly(Running) && status == Some(Failed)
    case WasTerminated => target == Exactly(Running) && status == Some(Terminated)
    case WrongTerminal(s) =>
      target != Exactly(Running) && target != Terminal && IsTerminal(s) && target != Exactly(s) && status == Some(s)
    case TimedOut => false
    case TerminalStateUnavailable => false
    case Threw(_) => false
    case StillPolling => false
  }

  /** The pause after a status that decides nothing. */
  method PauseAfterStatus(w: World, options: Options, deadline: Option<real>, status: Option<Status>, intervalMs: real)
    returns (quit: Option<Result>, sleepMs: real)
    requires intervalMs >= POLL_INTERVAL_MS
    modifies w`now, w`naps
    ensures sleepMs == ByDeadline(StartupPollSleepMs(intervalMs, status, options, old(w.now)), deadline, old(w.now))
    ensures old(w.naps) <= w.naps && NapsInTime(w.naps[|old(w.naps)|..], deadline)
    ensures InTime(old(w.now), w.now, deadline)
    ensures quit.Some? ==> quit.value in {TimedOut, Aborted}
    ensures quit == Some(TimedOut) ==> Passed(deadline, w.now)
    ensures quit == Some(Aborted) ==> w.Aborted()
    ensures quit.None? ==> w.now == old(w.now) + sleepMs
    ensures quit.None? ==>
      w.now >= old(w.now) + POLL_INTERVAL_MS || (deadline.Some? && w.now == deadline.value)
  {
    sleepMs := StartupPollSleepMs(intervalMs, status, options, w.now);
    if deadline.Some? {
      sleepMs := Min(sleepMs, deadline.value - w.now);
      if deadline.value - w.now <= 0.0 {
        return Some(TimedOut), sleepMs;
      }
    }
    var cut := w.Sleep(sleepMs);
    assert w.naps[|old(w.naps)|..] == [w.naps[|w.naps| - 1]];
    return if cut then Some(Aborted) else None, sleepMs;
  }

  lemma {:induction false} NapsInTimeAppend(a: seq<Nap>, b: seq<Nap>, c: seq<Nap>, deadline: Option<real>)
    requires a <= b <= c && NapsInTime(b[|a|..], deadline) && NapsInTime(c[|b|..], deadline)
    ensures NapsInTime(c[|a|..], deadline)
  {
  }

  /** The most rounds a bounded wait can make. */
  ghost function MaxPolls(start: real, deadline: real): int {
    if deadline <= start then 2 else ((deadline - start) / POLL_INTERVAL_MS).Floor + 2
  }

  lemma {:induction false} FewPolls(n: int, start: real, now: real, deadline: real)
    requires Spaced(n, start, now, Some(deadline)) && InTime(start, now, Some(deadline))
    ensures n < MaxPolls(start, deadline)
  {
  }

  /** The rest of a round that found a status. */
  method AfterStatus(w: World, options: Options, deadline: Option<real>, info: Info, intervalMs: real,
                     ghost polls: seq<Poll>, ghost run: Option<int>, ghost armed: Option<real>,
                     ghost start: real, ghost before: real)
    returns (quit: Option<Result>, ghost gets: seq<Try>, ghost reports: seq<Info>, ghost pauseMs: real)
    requires Answered(polls, run, armed, start, before, w.now, options, deadline) && w.Recorded()
    requires Last(polls).result == Got(info) && intervalMs >= POLL_INTERVAL_MS
    modifies w
    ensures w.Recorded() && InTime(start, w.now, deadline)
    ensures w.tries == old(w.tries) + gets && old(w.naps) <= w.naps
    ensures TriesInTime(gets, deadline) && NapsInTime(w.naps[|old(w.naps)|..], deadline)
    ensures reports == Reported([Remap(info)] + CompletedReplies(gets), quit)
    ensures quit.Some? ==> !quit.value.StillPolling? && Verdict(quit.value, polls, gets, options, deadline, w.now)
    ensures quit == Some(Aborted) ==> w.Aborted()
    ensures quit.None? ==> gets == [] && AtHead(polls, None, None, start, w.now, options, deadline)
    ensures quit != Some(TerminalStateUnavailable)
    ensures quit.None? ==>
      PausesFor(Last(polls), pauseMs, intervalMs, options, deadline) && w.now == old(w.now) + pauseMs
    ensures GetsPaced(gets, old(w.now), deadline)
  {
    pauseMs := 0.0;
    ghost var mid, na := w.now, w.naps;
    quit, gets, reports := Observe(w, options, deadline, info);
    hide CompletedReplies;
    if quit.None? {
      ghost var nb := w.naps;
      quit, pauseMs := PauseAfterStatus(w, options, deadline, Remap(info).status, intervalMs);
      NapsInTimeAppend(na, nb, w.naps, deadline);
      if quit.None? {
        HeadAfterStatus(polls, run, armed, start, before, mid, w.now, options, deadline);
      }
    }
  }

  /** What a poll that found no status, and is not to be repeated, comes to. */
  function EndOf(r: PollResult): Result
    requires !r.Got?
  {
    match r
    case Expired => TimedOut
    case Interrupted => Aborted
    case Raised(e) => Result.Threw(e)
  }

  lemma NothingSeen(poll: Poll, deadline: Option<real>)
    requires !poll.result.Got?
    ensures Observation(poll) + CompletedReplies([]) == [] && TriesInTime([], deadline)
  {
  }

  lemma {:induction false} EndsAtOnce(polls: seq<Poll>, options: Options, deadline: Option<real>, now: real)
    requires polls != [] && !Last(polls).result.Got?
    requires IsNotFound(Last(polls).result) ==> !options.retryNotFoundAfterStop
    requires Last(polls).result.Expired? ==> Passed(deadline, now)
    ensures Verdict(EndOf(Last(polls).result), polls, [], options, deadline, now)
  {
  }

  /** One round: a poll, and then a pause or the end of the wait. */
  method Round(w: World, options: Options, deadline: Option<real>, armed: Option<real>, intervalMs: real,
               ghost polls: seq<Poll>, ghost run: Option<int>, ghost start: real)
    returns (quit: Option<Result>, armed': Option<real>, ghost poll: Poll, ghost run': Option<int>,
             ghost gets: seq<Try>, ghost reports: seq<Info>, ghost pauseMs: real)
    requires AtHead(polls, run, armed, start, w.now, options, deadline) && w.Recorded()
    requires intervalMs >= POLL_INTERVAL_MS
    modifies w
    ensures w.Recorded() && InTime(start, w.now, deadline)
    ensures w.tries == old(w.tries) + poll.tries + gets && old(w.naps) <= w.naps
    ensures TriesInTime(poll.tries, deadline) && TriesInTime(gets, deadline)
    ensures NapsInTime(w.naps[|old(w.naps)|..], deadline)
    ensures PollOk(poll, deadline) && poll.start == old(w.now)
    ensures reports == Reported(Observation(poll) + CompletedReplies(gets), quit)
    ensures quit.Some? ==>
      !quit.value.StillPolling? && Verdict(quit.value, polls + [poll], gets, options, deadline, w.now)
    ensures quit == Some(Aborted) ==> w.Aborted()
    ensures quit.None? ==> gets == [] && AtHead(polls + [poll], run', armed', start, w.now, options, deadline)
    ensures quit.None? ==>
      PausesFor(poll, pauseMs, intervalMs, options, deadline) && w.now == poll.at + pauseMs
    ensures quit.None? && IsNotFound(poll.result) ==>
      armed'.Some? && GracePauseIs(pauseMs, intervalMs, deadline, poll.at, armed'.value)
    ensures GetsPaced(gets, poll.at, deadline)
    ensures quit == Some(TerminalStateUnavailable) <==> options.retryNotFoundAfterStop && OutOfGrace(polls + [poll])
  {
    ghost var before, na := w.now, w.naps;
    gets, reports, armed', run', pauseMs := [], [], None, None, 0.0;
    var r;
    r, poll := GetStatusForWait(w, deadline);
    hide PollOk;
    assert w.naps[|na|..] == poll.naps && w.tries == w.tries + [];
    ghost var all, nb := polls + [poll], w.naps;
    assert all[..|all| - 1] == polls;
    assert Answered(all, run, armed, start, before, w.now, options, deadline) && InTime(start, w.now, deadline);
    hide Answered, AtHead, Verdict, TriesInTime, NapsInTime, InTime, GoesOnAfter, CompletedReplies;
    if !IsNotFound(r) {
      FoundIsInGrace(all);
    }
    hide OutOfGrace, Graced;
    if r.Got? {
      quit, gets, reports, pauseMs :=
        AfterStatus(w, options, deadline, r.info, intervalMs, all, run, armed, start, before);
      NapsInTimeAppend(na, nb, w.naps, deadline);
      return;
    }
    NothingSeen(poll, deadline);
    if IsNotFound(r) && options.retryNotFoundAfterStop {
      var deadlineNow;
      quit, deadlineNow, pauseMs := AfterNotFound(w, options, deadline, armed, intervalMs, all, run, start, before);
      NapsInTimeAppend(na, nb, w.naps, deadline);
      armed', run' := Some(deadlineNow), Some(RunStart(all, run));
      return;
    }
    quit := Some(EndOf(r));
    EndsAtOnce(all, options, deadline, w.now);
  }

  /** The loop between two rounds, with everything it has recorded. */
  ghost predicate Going(
      polls: seq<Poll>, pauses: seq<real>, reports: seq<Info>, start: real, now: real, options: Options,
      deadline: Option<real>)
  {
    && |polls| == |pauses| && Timely(polls, pauses, start, deadline)
    && now == StartAt(polls, pauses, start, |polls|)
    && BacksOff(polls, pauses, options, deadline)
    && TriesInTime(TriesOf(polls), deadline)
    && reports == Observations(polls)
  }

  lemma {:induction false} GoesRound(
      polls: seq<Poll>, pauses: seq<real>, reports: seq<Info>, start: real, now: real, options: Options,
      deadline: Option<real>, poll: Poll, pauseMs: real)
    requires Going(polls, pauses, reports, start, now, options, deadline)
    requires PollOk(poll, deadline) && poll.start == now && TriesInTime(poll.tries, deadline)
    ensures var all := polls + [poll];
      && Timely(all, pauses, start, deadline) && BacksOff(all, pauses, options, deadline)
      && TriesInTime(TriesOf(all), deadline)
      && TriesOf(all) == TriesOf(polls) + poll.tries
      && (PausesFor(poll, pauseMs, IntervalAt(|polls|), options, deadline) ==>
        Going(all, pauses + [pauseMs], reports + Observation(poll), start, poll.at + pauseMs, options, deadline))
  {
    TimelyMore(polls, pauses, start, deadline, poll, pauseMs);
    hide PollOk, Timely, TriesInTime;
    BacksOffMore(polls, pauses, options, deadline, poll, pauseMs);
    TriesOfMore(polls, poll, deadline);
    ObservationsMore(polls, poll);
    hide PausesFor, BacksOff;
  }

  lemma Joined(a: seq<Try>, b: seq<Try>, c: seq<Try>, d: seq<Try>)
    ensures a + b + c + d == a + (b + c) + d
    ensures d == [] ==> a + b + c + d == a + (b + c)
    ensures c == [] && d == [] ==> a + b == a + b + d
  {
  }

  /** What a round reports, put after what was reported before it. */
  lemma {:induction false} ReportsGrow(
      polls: seq<Poll>, poll: Poll, gets: seq<Try>, quit: Option<Result>, options: Options, deadline: Option<real>,
      now: real)
    requires quit.Some? ==> Verdict(quit.value, polls + [poll], gets, options, deadline, now)
    ensures Observations(polls) + Reported(Observation(poll) + CompletedReplies(gets), quit)
         == Reported(Observations(polls + [poll]) + CompletedReplies(gets), quit)
    ensures quit.None? && gets == [] ==>
      Reported(Observation(poll) + CompletedReplies(gets), quit) == Observation(poll)
  {
    ObservationsMore(polls, poll);
    ReportedAfter(Observations(polls), Observation(poll) + CompletedReplies(gets), quit);
    assert Observations(polls) + (Observation(poll) + CompletedReplies(gets))
        == Observations(polls) + Observation(poll) + CompletedReplies(gets);
  }

  /** Everything promised of a whole wait, but for what it leaves in the world. */
  ghost predicate Waited(
      r: Result, polls: seq<Poll>, pauses: seq<real>, gets: seq<Try>, reports: seq<Info>, start: real, now: real,
      options: Options, deadline: Option<real>)
  {
    && Verdict(r, polls, gets, options, deadline, now)
    && (polls != [] ==> AllGoOn(polls[..|polls| - 1], options))
    && InTime(start, now, deadline)
    && Timely(polls, pauses, start, deadline) && BacksOff(polls, pauses, options, deadline)
    && TriesInTime(TriesOf(polls), deadline) && TriesInTime(gets, deadline)
    && (deadline.Some? ==> |polls| <= MaxPolls(start, deadline.value))
    && reports == Reported(Observations(polls) + CompletedReplies(gets), Some(r))
  }

  lemma {:induction false} StopsAfterGoingOn(polls: seq<Poll>, options: Options, deadline: Option<real>, now: real)
    requires AllGoOn(polls, options)
    ensures Verdict(Aborted, polls, [], options, deadline, now)
    ensures deadline.None? ==> Verdict(StillPolling, polls, [], options, deadline, now)
    ensures polls != [] ==> AllGoOn(polls[..|polls| - 1], options)
  {
    hide GoesOnAfter;
  }

  /** Between two rounds the wait may stop for the signal, or be cut off. */
  lemma {:induction false} StopsAtHead(
      polls: seq<Poll>, pauses: seq<real>, reports: seq<Info>, run: Option<int>, armed: Option<real>, start: real,
      now: real, options: Options, deadline: Option<real>)
    requires AtHead(polls, run, armed, start, now, options, deadline)
    requires Going(polls, pauses, reports, start, now, options, deadline)
    ensures Waited(Aborted, polls, pauses, [], reports, start, now, options, deadline)
    ensures deadline.None? ==> Waited(StillPolling, polls, pauses, [], reports, start, now, options, deadline)
    ensures deadline.Some? ==> |polls| < MaxPolls(start, deadline.value)
    ensures now == StartAt(polls, pauses, start, |polls|)
  {
    if deadline.Some? {
      FewPolls(|polls|, start, now, deadline.value);
    }
    assert reports + [] == reports && CompletedReplies([]) == [];
    assert AllGoOn(polls, options) && InTime(start, now, deadline);
    hide AtHead, AllGoOn, InTime, Timely, BacksOff, TriesOf, Observations, MaxPolls, StartAt, CompletedReplies;
    StopsAfterGoingOn(polls, options, deadline, now);
    hide Verdict;
  }

  /** A round later the wait is over or back between two rounds. */
  lemma {:induction false} RoundOver(
      polls: seq<Poll>, pauses: seq<real>, reports: seq<Info>, run: Option<int>, armed: Option<real>, start: real,
      options: Options, deadline: Option<real>, poll: Poll, gets: seq<Try>, pauseMs: real, quit: Option<Result>,
      now: real)
    requires AtHead(polls, run, armed, start, poll.start, options, deadline)
    requires Going(polls, pauses, reports, start, poll.start, options, deadline)
    requires PollOk(poll, deadline) && TriesInTime(poll.tries, deadline) && TriesInTime(gets, deadline)
    requires InTime(start, now, deadline)
    requires quit.Some? ==> Verdict(quit.value, polls + [poll], gets, options, deadline, now)
    requires quit.None? ==>
      PausesFor(poll, pauseMs, IntervalAt(|polls|), options, deadline) && now == poll.at + pauseMs && gets == []
    ensures var more := reports + Reported(Observation(poll) + CompletedReplies(gets), quit);
      if quit.Some? then
        Waited(quit.value, polls + [poll], pauses, gets, more, start, now, options, deadline)
      else
        Going(polls + [poll], pauses + [pauseMs], more, start, now, options, deadline)
    ensures TriesOf(polls + [poll]) == TriesOf(polls) + poll.tries
  {
    if deadline.Some? {
      FewPolls(|polls|, start, poll.start, deadline.value);
    }
    assert AllGoOn(polls, options) && reports == Observations(polls);
    hide AtHead, AllGoOn, PollOk;
    GoesRound(polls, pauses, reports, start, poll.start, options, deadline, poll, pauseMs);
    hide Going, Timely, BacksOff, TriesInTime, TriesOf, PausesFor, InTime, MaxPolls;
    ReportsGrow(polls, poll, gets, quit, options, deadline, now);
    assert (polls + [poll])[..|polls + [poll]| - 1] == polls;
    hide Verdict, Reported, Observations, Observation, CompletedReplies;
  }

  lemma {:induction false} GraceGoesOn(
      polls: seq<Poll>, pauses: seq<real>, deadline: Option<real>, poll: Poll, pauseMs: real, run: Option<int>,
      armed: Option<real>, start: real, now: real, options: Options, goesOn: bool)
    requires Graced(polls, pauses, deadline) && |pauses| == |polls|
    requires goesOn ==> AtHead(polls + [poll], run, armed, start, now, options, deadline)
    requires goesOn && IsNotFound(poll.result) ==>
      armed.Some? && GracePauseIs(pauseMs, IntervalAt(|polls|), deadline, poll.at, armed.value)
    ensures Graced(polls + [poll], pauses, deadline)
    ensures goesOn ==> Graced(polls + [poll], pauses + [pauseMs], deadline)
  {
    hide Graced, GracePauseIs, AllGoOn, NotFoundRun;
    assert goesOn && run.Some? ==> NotFoundAt(polls + [poll], |polls|);
    GracedMore(polls, pauses, deadline, poll, pauseMs, run);
  }

  /**
   `waitForSandbox`. Whatever the server answers, a bounded wait ends by its deadline,
   after at most one round per 200 ms and two more.
   */
  method WaitForSandbox(w: World, options: Options, timeoutMs: Option<real>, unboundedPolls: nat)
    returns (r: Result, ghost polls: seq<Poll>, ghost pauses: seq<real>, ghost gets: seq<Try>,
             ghost reports: seq<Info>)
    requires w.Recorded()
    modifies w
    ensures w.Recorded() && w.tries == old(w.tries) + TriesOf(polls) + gets && old(w.naps) <= w.naps
    ensures var deadline := if timeoutMs.None? then None else Some(old(w.now) + timeoutMs.value);
      && Waited(r, polls, pauses, gets, reports, old(w.now), w.now, options, deadline)
      && NapsInTime(w.naps[|old(w.naps)|..], deadline)
    ensures r == Aborted ==> w.Aborted()
    ensures old(w.Aborted()) ==> r == Aborted && polls == []
    ensures var deadline := if timeoutMs.None? then None else Some(old(w.now) + timeoutMs.value);
      Graced(polls, pauses, deadline) && (gets != [] ==> GetsPaced(gets, polls[|polls| - 1].at, deadline))
    ensures r == TerminalStateUnavailable <==> options.retryNotFoundAfterStop && OutOfGrace(polls)
  {
    var deadline := if timeoutMs.None? then None else Some(w.now + timeoutMs.value);
    var armed: Option<real> := None;
    var intervalMs := POLL_INTERVAL_MS;
    var rounds := 0;
    ghost var start, na := w.now, w.naps;
    ghost var run: Option<int> := None;
    polls, pauses, gets, reports := [], [], [], [];
    while true
      invariant AtHead(polls, run, armed, start, w.now, options, deadline)
      invariant Going(polls, pauses, reports, start, w.now, options, deadline)
      invariant w.Recorded() && w.tries == old(w.tries) + TriesOf(polls)
      invariant POLL_INTERVAL_MS <= intervalMs == IntervalAt(|polls|) && rounds == |polls|
      invariant na <= w.naps && NapsInTime(w.naps[|na|..], deadline)
      invariant old(w.Aborted()) ==> polls == [] && w.Aborted()
      invariant Graced(polls, pauses, deadline)
      decreases if deadline.None? then unboundedPolls - rounds else MaxPolls(start, deadline.value) - |polls|
    {
      StopsAtHead(polls, pauses, reports, run, armed, start, w.now, options, deadline);
      GracedIsInGrace(polls, pauses, deadline);
      Joined(old(w.tries), TriesOf(polls), [], []);
      hide Going, AtHead, Verdict, TriesInTime, NapsInTime, PausesFor, PollOk, Waited, Graced, GracePauseIs, OutOfGrace;
      IntervalGrows(|polls|);
      hide TriesOf, CompletedReplies, Reported, InTime, MaxPolls, StartAt, IntervalAt, NextPollIntervalMs;
      if w.Aborted() {
        return Aborted, polls, pauses, [], reports;
      }
      if deadline.None? && rounds >= unboundedPolls {
        return StillPolling, polls, pauses, [], reports;
      }
      ghost var nb, before, run0, armed0 := w.naps, polls, run, armed;
      var quit;
      ghost var poll, more, pauseMs;
      quit, armed, poll, run, gets, more, pauseMs := Round(w, options, deadline, armed, intervalMs, polls, run, start);
      NapsInTimeAppend(na, nb, w.naps, deadline);
      RoundOver(polls, pauses, reports, run0, armed0, start, options, deadline, poll, gets, pauseMs, quit, w.now);
      Joined(old(w.tries), TriesOf(polls), poll.tries, gets);
      GraceGoesOn(polls, pauses, deadline, poll, pauseMs, run, armed, start, w.now, options, quit.None?);
      polls, reports := polls + [poll], reports + more;
      if quit.Some? {
        return quit.value, polls, pauses, gets, reports;
      }
      rounds, pauses := rounds + 1, pauses + [pauseMs];
      intervalMs := NextPollIntervalMs(intervalMs);
    }
  }
}
