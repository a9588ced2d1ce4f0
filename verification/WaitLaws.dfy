/** How a wait ends, status by status, and when it looks again, in milliseconds (wait.ts). */
module WaitLaws {
  import opened Wrappers
  import opened Reals
  import opened Worlds
  import opened RetryTransient
  import opened WaitForSandbox

  lemma {:induction false} GoesOnMeansUndecided(target: Target, info: Info)
    ensures GoesOn(Remap(info).status, target) <==> Decision(target, info.status).None?
    ensures Satisfies(Remap(info).status, target) <==> Decision(target, info.status) == Some(Reached)
  {
  }

  /** A poll that found nothing yet: a status that decides nothing, or a sandbox already gone from a stop-owned wait. */
  ghost predicate Undecided(poll: Poll, options: Options) {
    match poll.result
    case Got(info) => Decision(options.target, info.status).None?
    case Raised(e) => e.kind == NotFound && options.retryNotFoundAfterStop
    case Expired => false
    case Interrupted => false
  }

  lemma {:induction false} UndecidedGoesOn(poll: Poll, options: Options)
    ensures GoesOnAfter(poll, options) <==> Undecided(poll, options)
  {
    if poll.result.Got? {
      GoesOnMeansUndecided(options.target, poll.result.info);
    }
  }

  /** The last poll decides the result, and the result tells what the last poll found. */
  ghost predicate DecidedByLast(r: Result, last: Poll, options: Options) {
    if Undecided(last, options) then r in {TimedOut, Aborted, StillPolling, TerminalStateUnavailable}
    else
      match last.result
      case Got(info) => Some(r) == Decision(options.target, info.status)
                        || (r == Aborted && Decision(options.target, info.status) == Some(Reached))
      case Raised(e) => r == Result.Threw(e)
      case Expired => r == TimedOut
      case Interrupted => r == Aborted
  }

  /**
   A wait polls until a poll decides it: every poll before the last found nothing yet, and
   the last one makes the result, unless time or the signal did.
   */
  lemma {:induction false} TheFirstDecisionEndsTheWait(
      r: Result, polls: seq<Poll>, pauses: seq<real>, gets: seq<Try>, reports: seq<Info>, start: real, now: real,
      options: Options, deadline: Option<real>)
    requires Waited(r, polls, pauses, gets, reports, start, now, options, deadline)
    ensures forall i | 0 <= i < |polls| - 1 :: Undecided(polls[i], options)
    ensures if polls == [] then r in {Aborted, StillPolling} else DecidedByLast(r, polls[|polls| - 1], options)
  {
    VerdictDecides(r, polls, gets, options, deadline, now);
    hide Verdict, DecidedByLast, Timely, BacksOff, InTime, TriesInTime, Reported, Observations;
    forall i | 0 <= i < |polls| - 1 ensures Undecided(polls[i], options) {
      assert polls[..|polls| - 1][i] in polls[..|polls| - 1];
      UndecidedGoesOn(polls[i], options);
    }
  }

  lemma {:induction false} VerdictDecides(
      r: Result, polls: seq<Poll>, gets: seq<Try>, options: Options, deadline: Option<real>, now: real)
    requires Verdict(r, polls, gets, options, deadline, now)
    ensures if polls == [] then r in {Aborted, StillPolling} else DecidedByLast(r, polls[|polls| - 1], options)
  {
    if polls != [] {
      var last := polls[|polls| - 1];
      UndecidedGoesOn(last, options);
      if last.result.Got? {
        GoesOnMeansUndecided(options.target, last.result.info);
      }
    }
    hide EnoughGets, GoesOnAfter, Undecided;
  }

  /**
   On a normal return after a completed sandbox without an exit code, and not for a stop,
   Gets were made for the code: until one had it or failed, two were made, or time was up.
   Otherwise none was.
   */
  lemma {:induction false} ExitCodeIsAskedFor(
      polls: seq<Poll>, gets: seq<Try>, options: Options, deadline: Option<real>, now: real)
    requires Verdict(Reached, polls, gets, options, deadline, now)
    ensures polls != [] && polls[|polls| - 1].result.Got?
    ensures var found := polls[|polls| - 1].result.info;
      if found.status in {Some(Completed), Some(Unspecified)} && found.exitCode.None? && !options.retryNotFoundAfterStop
      then
        || |gets| == 2 || Passed(deadline, now)
        || (gets != [] && gets[|gets| - 1].reply.Err?)
        || exists g <- gets :: g.reply.Ok? && g.reply.info.status in {Some(Completed), Some(Unspecified)}
                               && g.reply.info.exitCode.Some?
      else gets == []
  {
    var found := polls[|polls| - 1].result.info;
    LatestIsOne(Remap(found), gets);
  }

  lemma {:induction false} LatestIsOne(result: Info, gets: seq<Try>)
    ensures || Latest(result, gets) == result
            || exists g <- gets :: g.reply.Ok? && g.reply.info.status in {Some(Completed), Some(Unspecified)}
                                   && Latest(result, gets) == Remap(g.reply.info)
  {
    if gets != [] {
      var init, last := gets[..|gets| - 1], gets[|gets| - 1];
      LatestIsOne(result, init);
      assert forall g <- init :: g in gets;
      if last.reply.Ok? && Remap(last.reply.info).status == Some(Completed) {
        assert Latest(result, gets) == Remap(last.reply.info);
      } else {
        assert Latest(result, gets) == Latest(result, init);
      }
    }
  }

  /** The intervals between rounds: 200 ms, half as long again each time, and 2 s from the seventh on. */
  lemma {:induction false} Intervals(i: nat)
    ensures IntervalAt(0) == 200.0 && IntervalAt(1) == 300.0 && IntervalAt(2) == 450.0 && IntervalAt(3) == 675.0
    ensures IntervalAt(4) == 1_012.5 && IntervalAt(5) == 1_518.75
    ensures i >= 6 ==> IntervalAt(i) == 2_000.0
  {
    assert IntervalAt(1) == 300.0 && IntervalAt(2) == 450.0 && IntervalAt(3) == 675.0;
    assert IntervalAt(4) == 1_012.5 && IntervalAt(5) == 1_518.75;
    if i > 6 {
      Intervals(i - 1);
    }
  }

  /**
   The pause after a status that decides nothing is the round's interval, at most half a second
   in the first 15 s of a start that is still pending or creating, and never past the deadline.
   */
  lemma {:induction false} PauseAfterStatusIs(
      polls: seq<Poll>, pauses: seq<real>, options: Options, deadline: Option<real>, i: nat)
    requires BacksOff(polls, pauses, options, deadline) && i < |pauses| && polls[i].result.Got?
    ensures var at, found := polls[i].at, polls[i].result.info.status;
      var starting := && options.startupPollStartedAt.Some?
                      && (found == Some(Pending) || found == Some(Creating))
                      && at - options.startupPollStartedAt.value < 15_000.0;
      var interval := if starting then Min(IntervalAt(i), 500.0) else IntervalAt(i);
      pauses[i] == if deadline.Some? then Min(interval, deadline.value - at) else interval
  {
    assert PausesFor(polls[i], pauses[i], IntervalAt(i), options, deadline);
    hide IntervalAt;
  }

  predicate Missed(poll: Poll) { poll.result.Raised? && poll.result.error.kind == NotFound }

  /**
   A stop-owned wait puts up with not-found answers for less than two seconds from the first
   of them: it goes on only within that time, and then pauses no longer than to its end.
   */
  lemma {:induction false} NotFoundHasTwoSeconds(
      polls: seq<Poll>, pauses: seq<real>, deadline: Option<real>, j: nat, i: nat)
    requires Graced(polls, pauses, deadline) && j <= i < |pauses|
    requires (j > 0 ==> !Missed(polls[j - 1])) && forall k | j <= k <= i :: Missed(polls[k])
    ensures polls[i].at < polls[j].at + 2_000.0
    ensures var least := Min(IntervalAt(i), polls[j].at + 2_000.0 - polls[i].at);
      pauses[i] == if deadline.Some? then Min(least, deadline.value - polls[i].at) else least
  {
    assert GraceAt(polls, pauses, i, deadline);
    assert RunAt(polls, j, i);
    hide IntervalAt, RunAt;
  }

  /** No poll is made past the deadline; else its answer is its burst's, but for an error that comes after it. */
  lemma {:induction false} PollResultIs(poll: Poll, deadline: Option<real>)
    requires PollOk(poll, deadline)
    ensures deadline.Some? && poll.start >= deadline.value ==>
      poll.tries == [] && poll.at == poll.start && poll.result == Expired
    ensures !(deadline.Some? && poll.start >= deadline.value) ==>
      poll.tries != [] && poll.outcome.Some? &&
      var late := deadline.Some? && poll.at >= deadline.value;
      match poll.outcome.value
      case Value(info) => poll.result == Got(info)
      case Threw(e) => poll.result == if late then Expired else Raised(e)
      case AbortedWhileAsleep => poll.result == if late then Expired else Interrupted
  {
  }
}
