/** Unary and streamed file calls over the direct data plane or the gateway (file-adapter.ts). */
module FileRetry {
  import opened Wrappers
  import opened HintedRetry
  import opened Sequences

  const OVERLOAD_GATEWAY_MIN_MS := 1_000.0

  datatype Mode = AutoMode | DirectMode | GatewayMode

  /** The file call: a read may be retried through the gateway, a write may not. */
  datatype Request = Request(isWrite: bool, mode: Mode, timeoutMs: Option<real>)

  /** `isGrpcUnavailable`, `isRunnerShardRetiringError` and `isRunnerOverloadedError`, of the mapped error. */
  predicate IsUnavailable(e: RpcError) { e.code == Unavailable }

  predicate IsRetiring(e: RpcError) { e.reason == ShardRetiring }

  predicate IsOverloaded(e: RpcError) { e.reason == RunnerOverloaded }

  // ----- What a trace of events promises ----------------------------------------------------

  /** The lease held, the last answer through it, and whether it was discarded; or a rule broken. */
  datatype Hold = Free | Held(lease: nat, last: Option<Answer>, discarded: bool) | Broken

  function LastUnavailable(h: Hold): bool {
    h.Held? && h.last.Some? && h.last.value.Fail? && IsUnavailable(h.last.value.error)
  }

  /**
   One lease at a time; direct calls only through the lease held, gateway calls only with none;
   a lease is discarded just when its last call found the channel unavailable.
   */
  function Track(h: Hold, e: Event): Hold {
    match e
    case Acquired(i) => if h.Free? then Held(i, None, false) else Broken
    case Called(via, answer) =>
      if via.Gateway? then if h.Free? then Free else Broken
      else if h.Held? && h.lease == via.lease && !h.discarded then h.(last := Some(answer)) else Broken
    case Discarded(i) =>
      if h.Held? && h.lease == i && !h.discarded && LastUnavailable(h) then h.(discarded := true) else Broken
    case Released(i, discard) =>
      if h.Held? && h.lease == i && discard == h.discarded == LastUnavailable(h) then Free else Broken
  }

  function TrackAll(h: Hold, events: seq<Event>): Hold {
    if events == [] then h else Track(TrackAll(h, events[..|events| - 1]), events[|events| - 1])
  }

  ghost predicate Balanced(events: seq<Event>) { TrackAll(Free, events) == Free }

  function CountAcquired(events: seq<Event>, lease: nat): nat {
    if events == [] then 0
    else CountAcquired(events[..|events| - 1], lease) + if events[|events| - 1] == Acquired(lease) then 1 else 0
  }

  function CountReleased(events: seq<Event>, lease: nat): nat {
    if events == [] then 0
    else
      var e := events[|events| - 1];
      CountReleased(events[..|events| - 1], lease) + if e.Released? && e.lease == lease then 1 else 0
  }

  function CountCalls(events: seq<Event>): nat {
    if events == [] then 0
    else CountCalls(events[..|events| - 1]) + if events[|events| - 1].Called? then 1 else 0
  }

  lemma {:induction false} EveryLeaseIsReleasedOnce(events: seq<Event>, lease: nat)
    requires TrackAll(Free, events) != Broken
    ensures var h := TrackAll(Free, events);
      CountAcquired(events, lease) == CountReleased(events, lease) + if h.Held? && h.lease == lease then 1 else 0
  {
    if events != [] {
      EveryLeaseIsReleasedOnce(events[..|events| - 1], lease);
    }
  }

  lemma {:induction false} TrackAppend(h: Hold, a: seq<Event>, b: seq<Event>)
    ensures TrackAll(h, a + b) == TrackAll(TrackAll(h, a), b)
    ensures CountCalls(a + b) == CountCalls(a) + CountCalls(b)
  {
    if b == [] {
      assert a + b == a;
    } else {
      TrackAppend(h, a, b[..|b| - 1]);
      assert (a + b)[..|a + b| - 1] == a + b[..|b| - 1];
    }
  }

  /** A burst of calls keeps the lease, and leaves its last answer. */
  lemma {:induction false} TrackBurst(h: Hold, via: Via, tries: seq<CallTry>)
    requires tries != []
    requires if via.Gateway? then h.Free? else h.Held? && h.lease == via.lease && !h.discarded
    ensures TrackAll(h, CallEvents(via, tries)) ==
      if via.Gateway? then Free else h.(last := Some(tries[|tries| - 1].answer))
    ensures CountCalls(CallEvents(via, tries)) == |tries|
  {
    var events := CallEvents(via, tries);
    var init := tries[..|tries| - 1];
    assert events[..|events| - 1] == CallEvents(via, init);
    if init != [] {
      TrackBurst(h, via, init);
    } else {
      assert CallEvents(via, init) == [];
    }
  }

  ghost predicate NoGateway(events: seq<Event>) {
    forall e <- events :: e.Called? ==> e.via.Direct?
  }

  lemma NoGatewayAppend(a: seq<Event>, b: seq<Event>)
    ensures NoGateway(a) && NoGateway(b) ==> NoGateway(a + b)
  {
  }

  ghost predicate NoLeases(events: seq<Event>) {
    forall e <- events :: e.Called? && e.via.Gateway?
  }

  lemma NoLeasesAppend(a: seq<Event>, b: seq<Event>)
    ensures NoLeases(a) && NoLeases(b) ==> NoLeases(a + b)
  {
  }

  // ----- One attempt ------------------------------------------------------------------------

  const NO_DIRECT_ACCESS := RpcError(Unavailable, OtherReason, None, 0)

  /** Whether a lease is asked for at all. */
  predicate Asks(hasDataPlane: bool, mode: Mode) {
    hasDataPlane && mode != GatewayMode
  }

  /** What the data plane's answer comes to: a lease, an error, or neither, and then the gateway. */
  ghost predicate Settles(mode: Mode, connect: Option<Connect>, lease: Option<nat>, refusal: Option<RpcError>) {
    match connect
    case None => lease.None? && refusal.None?
    case Some(Connected) => lease.Some? && refusal.None?
    case Some(NotAvailable) => lease.None? && refusal == if mode == AutoMode then None else Some(NO_DIRECT_ACCESS)
    case Some(Refused(e)) => lease.None? && refusal == Some(e)
  }

  /** `acquireFileLease`: in gateway mode or without a data plane no lease, in direct mode a lease or an error. */
  method AcquireFileLease(w: Wire, hasDataPlane: bool, mode: Mode)
    returns (lease: Option<nat>, refusal: Option<RpcError>, ghost connect: Option<Connect>)
    modifies w`now, w`asked, w`leases, w`log
    ensures connect == if Asks(hasDataPlane, mode) then Some(w.connects(old(w.asked))) else None
    ensures Settles(mode, connect, lease, refusal)
    ensures w.asked == old(w.asked) + (if connect.Some? then 1 else 0) && old(w.now) <= w.now
    ensures lease == if lease.Some? then Some(old(w.leases)) else None
    ensures w.leases == old(w.leases) + if lease.Some? then 1 else 0
    ensures w.log == old(w.log) + AcquireEvents(lease)
  {
    if !hasDataPlane || mode == GatewayMode {
      return None, None, None;
    }
    var answer := w.Connect();
    connect := Some(answer);
    match answer {
      case Connected =>
        lease, refusal := Some(w.leases), None;
        w.leases := w.leases + 1;
        w.log := w.log + [Acquired(lease.value)];
      case NotAvailable =>
        lease, refusal := None, if mode == AutoMode then None else Some(NO_DIRECT_ACCESS);
      case Refused(e) =>
        lease, refusal := None, Some(e);
    }
  }

  function AcquireEvents(lease: Option<nat>): seq<Event> {
    if lease.Some? then [Acquired(lease.value)] else []
  }

  function FailureOf(r: Answer): Option<RpcError> {
    if r.Fail? then Some(r.error) else None
  }

  function FinishEvents(lease: Option<nat>, failure: Option<RpcError>): seq<Event> {
    if lease.None? then []
    else if failure.Some? && IsUnavailable(failure.value) then [Discarded(lease.value), Released(lease.value, true)]
    else [Released(lease.value, false)]
  }

  /** The catch and the finally: a lease whose channel was unavailable is discarded, and any lease is released. */
  method Finish(w: Wire, lease: Option<nat>, failure: Option<RpcError>)
    modifies w`log
    ensures w.log == old(w.log) + FinishEvents(lease, failure)
  {
    var discard := false;
    if lease.Some? && failure.Some? && IsUnavailable(failure.value) {
      discard := true;
      w.log := w.log + [Discarded(lease.value)];
    }
    if lease.Some? {
      w.log := w.log + [Released(lease.value, discard)];
    }
  }

  function ViaOf(lease: Option<nat>): Via {
    if lease.Some? then Direct(lease.value) else Gateway
  }

  /** The most calls one attempt makes. */
  function MostCalls(isWrite: bool, direct: bool, attempt: nat): nat {
    if direct then HINTED_RETRY_MAX_ATTEMPTS
    else if isWrite then 1
    else if attempt < HINTED_RETRY_MAX_ATTEMPTS then HINTED_RETRY_MAX_ATTEMPTS - attempt else 1
  }

  /**
   The calls of one attempt: through a lease, retried while the runner is overloaded; through
   the gateway, a read retried while it is unavailable and a write made once.
   */
  ghost predicate RunOk(isWrite: bool, direct: bool, attempt: nat, timeoutMs: Option<real>, tries: seq<CallTry>,
                        start: real, r: Answer, now: real, abortAt: Option<real>)
  {
    if isWrite && !direct then
      |tries| == 1 && tries[0].timeoutMs == timeoutMs && tries[0].start == start && tries[0].answer == r
    else
      Burst(tries, timeoutMs, MostCalls(isWrite, direct, attempt), if direct then OnOverloaded else OnUnavailable,
            start, r, now, abortAt)
  }

  method Run(w: Wire, request: Request, lease: Option<nat>, attempt: nat, timeoutMs: Option<real>)
    returns (r: Answer, ghost tries: seq<CallTry>)
    requires attempt < 2
    modifies w`now, w`calls, w`sleeps, w`draws, w`log, w`naps
    ensures w.log == old(w.log) + CallEvents(ViaOf(lease), tries) && old(w.now) <= w.now
    ensures w.calls == old(w.calls) + |tries| && Scripted(w.answers, old(w.calls), tries)
    ensures RunOk(request.isWrite, lease.Some?, attempt, timeoutMs, tries, old(w.now), r, w.now, w.abortAt)
  {
    ghost var pauses;
    if lease.Some? {
      r, tries, pauses :=
        RetryHintedUnavailable(w, Direct(lease.value), timeoutMs, HINTED_RETRY_MAX_ATTEMPTS, OnOverloaded);
    } else if request.isWrite {
      ghost var t;
      r, t := w.Call(Gateway, timeoutMs);
      tries := [t];
    } else {
      r, tries, pauses :=
        RetryHintedUnavailable(w, Gateway, timeoutMs, HINTED_RETRY_MAX_ATTEMPTS - attempt, OnUnavailable);
    }
  }

  /** One attempt: what the data plane said, the calls made, and how it ended. */
  datatype AttemptRec = AttemptRec(
    connect: Option<Connect>, lease: Option<nat>, refused: bool, start: real, tries: seq<CallTry>, answer: Answer,
    end: real)

  /** The trace an attempt leaves. */
  ghost function AttemptEvents(rec: AttemptRec): seq<Event> {
    AcquireEvents(rec.lease) + CallEvents(ViaOf(rec.lease), rec.tries) +
    if rec.refused then [] else FinishEvents(rec.lease, FailureOf(rec.answer))
  }

  ghost predicate AttemptOk(hasDataPlane: bool, request: Request, rec: AttemptRec, attempt: nat, abortAt: Option<real>)
  {
    && (rec.connect.Some? <==> Asks(hasDataPlane, request.mode))
    && Settles(request.mode, rec.connect, rec.lease, if rec.refused then FailureOf(rec.answer) else None)
    && if rec.refused then rec.tries == [] && rec.answer.Fail?
       else RunOk(request.isWrite, rec.lease.Some?, attempt, request.timeoutMs, rec.tries, rec.start, rec.answer,
                  rec.end, abortAt)
  }

  /** One attempt from the lease to its release. */
  method Attempt(w: Wire, hasDataPlane: bool, request: Request, attempt: nat)
    returns (lease: Option<nat>, r: Answer, refused: bool, ghost rec: AttemptRec)
    requires attempt < 2
    modifies w
    ensures rec.lease == lease && rec.answer == r && rec.refused == refused && rec.end == w.now
    ensures AttemptOk(hasDataPlane, request, rec, attempt, w.abortAt) && old(w.now) <= rec.start <= rec.end
    ensures Asks(hasDataPlane, request.mode) ==>
      rec.connect == Some(w.connects(old(w.asked))) && w.asked == old(w.asked) + 1
    ensures lease == if lease.Some? then Some(old(w.leases)) else None
    ensures w.leases == old(w.leases) + if lease.Some? then 1 else 0
    ensures w.log == old(w.log) + AttemptEvents(rec)
    ensures w.calls == old(w.calls) + |rec.tries| && Scripted(w.answers, old(w.calls), rec.tries)
  {
    var refusal;
    ghost var connect, tries;
    lease, refusal, connect := AcquireFileLease(w, hasDataPlane, request.mode);
    ghost var start := w.now;
    if refusal.Some? {
      r, refused := Fail(refusal.value), true;
      rec := AttemptRec(connect, lease, true, start, [], r, start);
      assert CallEvents(ViaOf(lease), []) == [];
      return;
    }
    hide Settles, RunOk, AcquireEvents, FinishEvents;
    r, tries := Run(w, request, lease, attempt, request.timeoutMs);
    Finish(w, lease, FailureOf(r));
    refused := false;
    rec := AttemptRec(connect, lease, false, start, tries, r, w.now);
  }

  // ----- What the trace of an attempt is ----------------------------------------------------

  function HoldOf(lease: Option<nat>): Hold {
    if lease.Some? then Held(lease.value, None, false) else Free
  }

  lemma {:induction false} FinishFrees(h: Hold, lease: Option<nat>, failure: Option<RpcError>)
    requires if lease.Some? then h.Held? && h.lease == lease.value && !h.discarded
               && (LastUnavailable(h) <==> failure.Some? && IsUnavailable(failure.value))
             else h == Free
    ensures TrackAll(h, FinishEvents(lease, failure)) == Free
    ensures CountCalls(FinishEvents(lease, failure)) == 0
  {
    var events := FinishEvents(lease, failure);
    if |events| == 2 {
      assert events[..1] == [Discarded(lease.value)] && events[..1][..0] == [];
      assert TrackAll(h, events[..1]) == Track(h, Discarded(lease.value));
      assert CountCalls(events[..1]) == 0;
    } else if |events| == 1 {
      assert events[..0] == [];
    }
  }

  lemma {:induction false} TrackAcquire(lease: Option<nat>)
    ensures TrackAll(Free, AcquireEvents(lease)) == HoldOf(lease) && CountCalls(AcquireEvents(lease)) == 0
  {
  }

  predicate Blames(r: Answer) {
    r.Fail? && IsUnavailable(r.error)
  }

  /** The answer of a run blames its channel just when the last answer through it did. */
  lemma {:induction false} RunBlames(isWrite: bool, direct: bool, attempt: nat, timeoutMs: Option<real>,
                                     tries: seq<CallTry>, start: real, r: Answer, now: real, abortAt: Option<real>)
    requires RunOk(isWrite, direct, attempt, timeoutMs, tries, start, r, now, abortAt) && attempt < 2
    ensures 1 <= |tries| <= MostCalls(isWrite, direct, attempt)
    ensures direct ==> (Blames(r) <==> Blames(tries[|tries| - 1].answer))
  {
    hide MayFollow, GivesUp;
  }

  lemma {:induction false} CallsBalance(lease: Option<nat>, tries: seq<CallTry>, r: Answer)
    requires tries != [] && (lease.Some? ==> (Blames(r) <==> Blames(tries[|tries| - 1].answer)))
    ensures var events := AcquireEvents(lease) + CallEvents(ViaOf(lease), tries) + FinishEvents(lease, FailureOf(r));
      Balanced(events) && CountCalls(events) == |tries|
  {
    var acquired, calls := AcquireEvents(lease), CallEvents(ViaOf(lease), tries);
    var last := FinishEvents(lease, FailureOf(r));
    TrackAcquire(lease);
    TrackBurst(HoldOf(lease), ViaOf(lease), tries);
    FinishFrees(TrackAll(HoldOf(lease), calls), lease, FailureOf(r));
    hide AcquireEvents, CallEvents, FinishEvents, TrackAll, CountCalls;
    TrackAppend(Free, acquired, calls);
    TrackAppend(Free, acquired + calls, last);
  }

  /** A lease is acquired before the calls made through it, and released after them. */
  lemma {:induction false} AttemptBalances(
      hasDataPlane: bool, request: Request, rec: AttemptRec, attempt: nat, abortAt: Option<real>)
    requires AttemptOk(hasDataPlane, request, rec, attempt, abortAt) && attempt < 2
    ensures Balanced(AttemptEvents(rec)) && CountCalls(AttemptEvents(rec)) == |rec.tries|
    ensures |rec.tries| <= MostCalls(request.isWrite, rec.lease.Some?, attempt)
  {
    if rec.refused {
      assert AttemptEvents(rec) == [];
      return;
    }
    hide RunOk, TrackAll, CountCalls, AcquireEvents, FinishEvents, CallEvents, Settles, Blames;
    RunBlames(request.isWrite, rec.lease.Some?, attempt, request.timeoutMs, rec.tries, rec.start, rec.answer, rec.end,
              abortAt);
    CallsBalance(rec.lease, rec.tries, rec.answer);
  }

  /** An attempt calls only through its lease, and only the gateway without one. */
  lemma {:induction false} AttemptStaysOnItsSide(rec: AttemptRec)
    ensures rec.lease.Some? ==> NoGateway(AttemptEvents(rec))
    ensures rec.lease.None? ==> NoLeases(AttemptEvents(rec))
    ensures rec.tries == [] ==> NoGateway(AttemptEvents(rec))
  {
    hide FailureOf;
  }

  // ----- Unary calls ------------------------------------------------------------------------

  datatype Next = Return | Retry | GoToGateway

  /** What the catch decides. */
  function NextAfter(request: Request, lease: Option<nat>, r: Answer, attempt: nat): Next {
    if r.Ok? || lease.None? then Return
    else if attempt == 0 && IsRetiring(r.error) then Retry
    else if request.mode == AutoMode && IsOverloaded(r.error) then GoToGateway
    else Return
  }

  function MostCallsInAll(isWrite: bool): nat { if isWrite then 7 else 9 }

  function NextOf(request: Request, rec: AttemptRec, attempt: nat): Next {
    if rec.refused then Return else NextAfter(request, rec.lease, rec.answer, attempt)
  }

  predicate EnoughFor(remaining: Option<real>) {
    remaining.Some? ==> remaining.value >= OVERLOAD_GATEWAY_MIN_MS
  }

  /** A whole call: its attempts, and the gateway's calls when it takes over. */
  datatype FileCall = FileCall(start: real, attempts: seq<AttemptRec>, gateway: seq<CallTry>, end: real)

  ghost function EventsOf(attempts: seq<AttemptRec>): seq<Event> {
    if attempts == [] then []
    else EventsOf(attempts[..|attempts| - 1]) + AttemptEvents(attempts[|attempts| - 1])
  }

  ghost function TriesOf(attempts: seq<AttemptRec>): seq<CallTry> {
    if attempts == [] then [] else TriesOf(attempts[..|attempts| - 1]) + attempts[|attempts| - 1].tries
  }

  ghost function CallTrace(c: FileCall): seq<Event> {
    EventsOf(c.attempts) + CallEvents(Gateway, c.gateway)
  }

  /** The attempts so far were made one after another, each as it should be. */
  ghost predicate AttemptsOk(hasDataPlane: bool, request: Request, start: real, attempts: seq<AttemptRec>,
                             abortAt: Option<real>)
  {
    forall i | 0 <= i < |attempts| :: AttemptAt(hasDataPlane, request, start, attempts, i, abortAt)
  }

  ghost predicate AttemptAt(hasDataPlane: bool, request: Request, start: real, attempts: seq<AttemptRec>, i: nat,
                            abortAt: Option<real>)
    requires i < |attempts|
  {
    && AttemptOk(hasDataPlane, request, attempts[i], i, abortAt)
    && (if i == 0 then start else attempts[i - 1].end) <= attempts[i].start <= attempts[i].end
  }

  /** What is left of the caller's timeout after the attempts. */
  ghost function RemainingAfter(request: Request, start: real, attempts: seq<AttemptRec>): Option<real>
    requires attempts != []
  {
    if request.timeoutMs.None? then None
    else Some(start + request.timeoutMs.value - attempts[|attempts| - 1].end)
  }

  /**
   A second attempt is made exactly after a first one whose shard was retiring, and the
   gateway takes over exactly when the last attempt was overloaded and a second is left.
   */
  ghost predicate Decided(request: Request, c: FileCall, r: Answer, abortAt: Option<real>) {
    && 1 <= |c.attempts| <= 2
    && (|c.attempts| == 2 <==> NextOf(request, c.attempts[0], 0) == Retry)
    && var last, left := c.attempts[|c.attempts| - 1], RemainingAfter(request, c.start, c.attempts);
       if NextOf(request, last, |c.attempts| - 1) == GoToGateway && EnoughFor(left) then
         RunOk(request.isWrite, false, 0, left, c.gateway, last.end, r, c.end, abortAt)
       else
         c.gateway == [] && r == last.answer && c.end == last.end
  }

  /** Between two attempts. */
  ghost predicate BetweenAttempts(request: Request, attempts: seq<AttemptRec>, attempt: nat,
                                  overloaded: Option<RpcError>)
  {
    && |attempts| == attempt <= 2
    && (attempt == 2 ==> overloaded.Some?)
    && (attempt == 0 ==> overloaded.None?)
    && (attempt > 0 ==>
         && (|attempts| == 2 ==> NextOf(request, attempts[0], 0) == Retry)
         && (overloaded.None? ==> NextOf(request, attempts[0], 0) == Retry)
         && (overloaded.Some? ==> NextOf(request, attempts[|attempts| - 1], |attempts| - 1) == GoToGateway)
         && (overloaded.Some? ==> attempts[|attempts| - 1].answer == Fail(overloaded.value)))
  }

  /** The attempts asked the data plane for one channel after another. */
  ghost predicate AskedInTurn(connects: nat -> Connect, from: nat, leases: nat, attempts: seq<AttemptRec>) {
    forall i | 0 <= i < |attempts| ::
      && (attempts[i].connect.Some? ==> attempts[i].connect.value == connects(from + i))
      && (attempts[i].lease.Some? ==> attempts[i].lease.value == leases + i)
  }

  /** A wire at one moment. */
  datatype Mark = Mark(now: real, calls: nat, asked: nat, leases: nat, log: seq<Event>)

  ghost function MarkOf(w: Wire): Mark
    reads w
  {
    Mark(w.now, w.calls, w.asked, w.leases, w.log)
  }

  /** What is recorded of a call's attempts, and follows from what the wire was scripted to say since the mark. */
  ghost predicate Recorded(w: Wire, hasDataPlane: bool, request: Request, m: Mark, attempts: seq<AttemptRec>) {
    && AttemptsOk(hasDataPlane, request, m.now, attempts, w.abortAt)
    && AskedInTurn(w.connects, m.asked, m.leases, attempts)
    && Scripted(w.answers, m.calls, TriesOf(attempts))
  }

  function EndOf(start: real, attempts: seq<AttemptRec>): real {
    if attempts == [] then start else attempts[|attempts| - 1].end
  }

  /** Where the wire is after these attempts. */
  ghost predicate At(w: Wire, m: Mark, attempts: seq<AttemptRec>)
    reads w
  {
    && w.now == EndOf(m.now, attempts)
    && w.log == m.log + EventsOf(attempts) && w.calls == m.calls + |TriesOf(attempts)|
  }

  lemma {:induction false} OneMoreAttempt(w: Wire, hasDataPlane: bool, request: Request, m: Mark,
                                          attempts: seq<AttemptRec>, rec: AttemptRec)
    requires Recorded(w, hasDataPlane, request, m, attempts)
    requires AttemptOk(hasDataPlane, request, rec, |attempts|, w.abortAt)
    requires EndOf(m.now, attempts) <= rec.start <= rec.end
    requires rec.connect.Some? ==> rec.connect.value == w.connects(m.asked + |attempts|)
    requires rec.lease.Some? ==> rec.lease.value == m.leases + |attempts|
    requires Scripted(w.answers, m.calls + |TriesOf(attempts)|, rec.tries)
    ensures Recorded(w, hasDataPlane, request, m, attempts + [rec])
    ensures m.log + EventsOf(attempts) + AttemptEvents(rec) == m.log + EventsOf(attempts + [rec])
    ensures TriesOf(attempts + [rec]) == TriesOf(attempts) + rec.tries
  {
    hide AttemptOk, AttemptEvents, Scripted;
    ScriptedAppend(w.answers, m.calls, TriesOf(attempts), rec.tries);
    var all := attempts + [rec];
    assert all[..|all| - 1] == attempts;
    Regroup(m.log, EventsOf(attempts), AttemptEvents(rec));
    forall i | 0 <= i < |all| ensures AttemptAt(hasDataPlane, request, m.now, all, i, w.abortAt) {
      assert i < |attempts| ==> AttemptAt(hasDataPlane, request, m.now, attempts, i, w.abortAt);
    }
  }

  /** One turn of the loop. */
  method Turn(w: Wire, hasDataPlane: bool, request: Request, attempt: nat, ghost m: Mark,
              ghost before: seq<AttemptRec>)
    returns (next: Next, answer: Answer, ghost attempts: seq<AttemptRec>)
    requires |before| == attempt < 2
    requires Recorded(w, hasDataPlane, request, m, before) && At(w, m, before)
    requires Asks(hasDataPlane, request.mode) ==> w.asked == m.asked + attempt
    requires w.leases == m.leases + attempt
    modifies w
    ensures Recorded(w, hasDataPlane, request, m, attempts) && At(w, m, attempts)
    ensures |attempts| == attempt + 1 && attempts[..attempt] == before
    ensures next == NextOf(request, attempts[attempt], attempt) && answer == attempts[attempt].answer
    ensures Asks(hasDataPlane, request.mode) ==> w.asked == m.asked + attempt + 1
    ensures next != Return ==> w.leases == m.leases + attempt + 1
  {
    var lease, refused;
    ghost var rec;
    lease, answer, refused, rec := Attempt(w, hasDataPlane, request, attempt);
    hide AttemptEvents, Recorded, Scripted, Settles, RunOk;
    OneMoreAttempt(w, hasDataPlane, request, m, before, rec);
    hide TriesOf, EventsOf;
    attempts := before + [rec];
    next := if refused then Return else NextAfter(request, lease, answer, attempt);
  }

  /** The attempts: until one returns, two have been made, or the last one was overloaded. */
  method MakeAttempts(w: Wire, hasDataPlane: bool, request: Request)
    returns (quit: Option<Answer>, overloaded: Option<RpcError>, ghost attempts: seq<AttemptRec>)
    modifies w
    ensures Recorded(w, hasDataPlane, request, old(MarkOf(w)), attempts) && At(w, old(MarkOf(w)), attempts)
    ensures 1 <= |attempts| <= 2 && (|attempts| == 2 <==> NextOf(request, attempts[0], 0) == Retry)
    ensures var last, next := attempts[|attempts| - 1], NextOf(request, attempts[|attempts| - 1], |attempts| - 1);
      if quit.Some? then next != GoToGateway && quit.value == last.answer
      else next == GoToGateway && overloaded.Some? && last.answer == Fail(overloaded.value)
  {
    ghost var m := MarkOf(w);
    overloaded, attempts := None, [];
    var attempt := 0;
    while attempt < 2 && overloaded.None?
      invariant BetweenAttempts(request, attempts, attempt, overloaded)
      invariant Asks(hasDataPlane, request.mode) ==> w.asked == m.asked + attempt
      invariant w.leases == m.leases + attempt
      invariant Recorded(w, hasDataPlane, request, m, attempts) && At(w, m, attempts)
    {
      hide Recorded, At;
      var next, answer;
      ghost var before := attempts;
      next, answer, attempts := Turn(w, hasDataPlane, request, attempt, m, before);
      assert attempt == 1 ==> attempts[..attempt][0] == before[0];
      if next == Return {
        return Some(answer), None, attempts;
      }
      if next == GoToGateway {
        overloaded := Some(answer.error);
      }
      attempt := attempt + 1;
    }
    quit := None;
  }

  lemma {:induction false} GatewayTurn(w: Wire, hasDataPlane: bool, request: Request, m: Mark, c: FileCall)
    requires Recorded(w, hasDataPlane, request, m, c.attempts)
    requires Scripted(w.answers, m.calls + |TriesOf(c.attempts)|, c.gateway)
    ensures Scripted(w.answers, m.calls, TriesOf(c.attempts) + c.gateway)
    ensures |TriesOf(c.attempts) + c.gateway| == |TriesOf(c.attempts)| + |c.gateway|
    ensures m.log + EventsOf(c.attempts) + CallEvents(Gateway, c.gateway) == m.log + CallTrace(c)
    ensures c.gateway == [] ==> m.log + EventsOf(c.attempts) == m.log + CallTrace(c)
  {
    ScriptedAppend(w.answers, m.calls, TriesOf(c.attempts), c.gateway);
    Regroup(m.log, EventsOf(c.attempts), CallEvents(Gateway, c.gateway));
    assert c.gateway == [] ==> CallEvents(Gateway, c.gateway) == [] && m.log + [] == m.log;
  }

  /** The attempts are over: what they were, and what follows the last of them. */
  ghost predicate Tried(w: Wire, hasDataPlane: bool, request: Request, m: Mark, attempts: seq<AttemptRec>, next: Next)
    reads w
  {
    && Recorded(w, hasDataPlane, request, m, attempts) && At(w, m, attempts)
    && 1 <= |attempts| <= 2 && (|attempts| == 2 <==> NextOf(request, attempts[0], 0) == Retry)
    && next == NextOf(request, attempts[|attempts| - 1], |attempts| - 1)
  }

  /** Everything a whole call is recorded to have done since the mark. */
  ghost predicate CallRecorded(w: Wire, hasDataPlane: bool, request: Request, m: Mark, c: FileCall)
    reads w
  {
    && c.start == m.now && c.end == w.now
    && AttemptsOk(hasDataPlane, request, c.start, c.attempts, w.abortAt)
    && AskedInTurn(w.connects, m.asked, m.leases, c.attempts)
    && w.log == m.log + CallTrace(c)
    && w.calls == m.calls + |TriesOf(c.attempts) + c.gateway|
    && Scripted(w.answers, m.calls, TriesOf(c.attempts) + c.gateway)
  }

  lemma {:induction false} WithoutGateway(w: Wire, hasDataPlane: bool, request: Request, m: Mark, c: FileCall,
                                          r: Answer, next: Next)
    requires Tried(w, hasDataPlane, request, m, c.attempts, next)
    requires c.gateway == [] && c.start == m.now && c.end == w.now && r == c.attempts[|c.attempts| - 1].answer
    requires next == GoToGateway ==> !EnoughFor(RemainingAfter(request, c.start, c.attempts))
    ensures CallRecorded(w, hasDataPlane, request, m, c) && Decided(request, c, r, w.abortAt)
  {
    GatewayTurn(w, hasDataPlane, request, m, c);
    hide Scripted, AttemptsOk, AskedInTurn, TriesOf, EventsOf, CallTrace;
  }

  /** Overload retries ran out: the call goes through the gateway in the time left. */
  method TakeOver(w: Wire, hasDataPlane: bool, request: Request, left: Option<real>, ghost m: Mark,
                  ghost attempts: seq<AttemptRec>)
    returns (r: Answer, ghost c: FileCall)
    requires Tried(w, hasDataPlane, request, m, attempts, GoToGateway)
    requires EnoughFor(left) && left == RemainingAfter(request, m.now, attempts)
    modifies w`now, w`calls, w`sleeps, w`draws, w`log, w`naps
    ensures CallRecorded(w, hasDataPlane, request, m, c) && Decided(request, c, r, w.abortAt)
  {
    hide RunOk, NextOf, TriesOf, EventsOf;
    ghost var gateway;
    r, gateway := Run(w, request, None, 0, left);
    c := FileCall(m.now, attempts, gateway, w.now);
    GatewayTurn(w, hasDataPlane, request, m, c);
    hide Scripted, AttemptsOk, AskedInTurn, CallTrace;
  }

  /**
   `withRetiringFileRetry`. The attempts, the gateway's turn and the answer are as decided,
   and follow from what the data plane and the servers were scripted to say.
   */
  method WithRetiringFileRetry(w: Wire, hasDataPlane: bool, request: Request) returns (r: Answer, ghost c: FileCall)
    modifies w
    ensures CallRecorded(w, hasDataPlane, request, old(MarkOf(w)), c) && Decided(request, c, r, w.abortAt)
  {
    ghost var m, attempts := MarkOf(w), [];
    var deadline := if request.timeoutMs.None? then None else Some(w.now + request.timeoutMs.value);
    var quit, overloaded;
    quit, overloaded, attempts := MakeAttempts(w, hasDataPlane, request);
    ghost var next := NextOf(request, attempts[|attempts| - 1], |attempts| - 1);
    assert Tried(w, hasDataPlane, request, m, attempts, next) && w.now == attempts[|attempts| - 1].end;
    hide Tried, CallRecorded, Decided, NextOf, At, Recorded;
    c := FileCall(m.now, attempts, [], w.now);
    if quit.Some? {
      WithoutGateway(w, hasDataPlane, request, m, c, quit.value, next);
      return quit.value, c;
    }
    var left := if deadline.None? then None else Some(deadline.value - w.now);
    if left.Some? && left.value < OVERLOAD_GATEWAY_MIN_MS {
      WithoutGateway(w, hasDataPlane, request, m, c, Fail(overloaded.value), next);
      return Fail(overloaded.value), c;
    }
    r, c := TakeOver(w, hasDataPlane, request, left, m, attempts);
  }

  // ----- What a whole call promises ---------------------------------------------------------

  ghost predicate CallOk(hasDataPlane: bool, request: Request, c: FileCall, r: Answer, abortAt: Option<real>) {
    AttemptsOk(hasDataPlane, request, c.start, c.attempts, abortAt) && Decided(request, c, r, abortAt)
  }

  /** What one attempt adds to the trace. */
  lemma {:induction false} AttemptAdds(hasDataPlane: bool, request: Request, rec: AttemptRec, attempt: nat,
                                       abortAt: Option<real>)
    requires AttemptOk(hasDataPlane, request, rec, attempt, abortAt) && attempt < 2
    ensures Balanced(AttemptEvents(rec))
    ensures CountCalls(AttemptEvents(rec)) <= MostCalls(request.isWrite, rec.lease.Some?, attempt)
    ensures hasDataPlane && request.mode == DirectMode ==> NoGateway(AttemptEvents(rec))
    ensures !Asks(hasDataPlane, request.mode) ==> NoLeases(AttemptEvents(rec)) && rec.lease.None?
  {
    AttemptBalances(hasDataPlane, request, rec, attempt, abortAt);
    assert hasDataPlane && request.mode == DirectMode ==> rec.lease.Some? || rec.tries == [];
    assert !Asks(hasDataPlane, request.mode) ==> rec.lease.None?;
    hide AttemptOk, AttemptEvents, NoGateway, NoLeases, CountCalls, TrackAll;
    AttemptStaysOnItsSide(rec);
  }

  /** The trace of the first `n` attempts. */
  lemma {:induction false} AttemptsBalance(hasDataPlane: bool, request: Request, start: real, attempts: seq<AttemptRec>,
                                           abortAt: Option<real>, n: nat)
    requires AttemptsOk(hasDataPlane, request, start, attempts, abortAt) && n <= |attempts| <= 2
    ensures Balanced(EventsOf(attempts[..n]))
    ensures CountCalls(EventsOf(attempts[..n])) <= HINTED_RETRY_MAX_ATTEMPTS * n
    ensures n == 1 ==>
      CountCalls(EventsOf(attempts[..n])) <= MostCalls(request.isWrite, attempts[0].lease.Some?, 0)
    ensures hasDataPlane && request.mode == DirectMode ==> NoGateway(EventsOf(attempts[..n]))
    ensures !Asks(hasDataPlane, request.mode) ==> NoLeases(EventsOf(attempts[..n]))
  {
    if n > 0 {
      var rec := attempts[n - 1];
      AttemptsBalance(hasDataPlane, request, start, attempts, abortAt, n - 1);
      assert AttemptAt(hasDataPlane, request, start, attempts, n - 1, abortAt);
      hide AttemptsOk, AttemptEvents, TrackAll, CountCalls, NoGateway, NoLeases;
      AttemptAdds(hasDataPlane, request, rec, n - 1, abortAt);
      hide AttemptOk, AttemptAt;
      var before, more := EventsOf(attempts[..n - 1]), AttemptEvents(rec);
      assert attempts[..n][..n - 1] == attempts[..n - 1] && EventsOf(attempts[..n]) == before + more;
      assert n == 1 ==> before == [] && before + more == more;
      hide EventsOf;
      TrackAppend(Free, before, more);
      NoGatewayAppend(before, more);
      NoLeasesAppend(before, more);
    }
  }

  /** The gateway's turn takes one call for a write and up to three for a read. */
  lemma {:induction false} GatewayCalls(isWrite: bool, timeoutMs: Option<real>, tries: seq<CallTry>, start: real,
                                        r: Answer, now: real, abortAt: Option<real>)
    requires tries == [] || RunOk(isWrite, false, 0, timeoutMs, tries, start, r, now, abortAt)
    ensures TrackAll(Free, CallEvents(Gateway, tries)) == Free
    ensures CountCalls(CallEvents(Gateway, tries)) == |tries| <= if isWrite then 1 else HINTED_RETRY_MAX_ATTEMPTS
    ensures NoLeases(CallEvents(Gateway, tries))
  {
    if tries == [] {
      assert CallEvents(Gateway, tries) == [];
    } else {
      RunBlames(isWrite, false, 0, timeoutMs, tries, start, r, now, abortAt);
      hide RunOk;
      TrackBurst(Free, Gateway, tries);
    }
  }

  lemma {:induction false} BalancedJoin(events: seq<Event>, gateway: seq<Event>)
    requires Balanced(events) && TrackAll(Free, gateway) == Free && NoLeases(gateway)
    ensures Balanced(events + gateway) && CountCalls(events + gateway) == CountCalls(events) + CountCalls(gateway)
    ensures NoLeases(events) ==> NoLeases(events + gateway)
    ensures gateway == [] ==> events + gateway == events
  {
    TrackAppend(Free, events, gateway);
    NoLeasesAppend(events, gateway);
  }

  /**
   Every lease is released once, on every path; a read makes at most nine calls and a write
   seven; direct mode never calls the gateway, and gateway mode never has a lease.
   */
  lemma {:induction false} EveryCallIsBalanced(
      hasDataPlane: bool, request: Request, c: FileCall, r: Answer, abortAt: Option<real>)
    requires CallOk(hasDataPlane, request, c, r, abortAt)
    ensures Balanced(CallTrace(c)) && CountCalls(CallTrace(c)) <= MostCallsInAll(request.isWrite)
    ensures hasDataPlane && request.mode == DirectMode ==> NoGateway(CallTrace(c))
    ensures !Asks(hasDataPlane, request.mode) ==>
      NoLeases(CallTrace(c)) && CountCalls(CallTrace(c)) <= MostCalls(request.isWrite, false, 0)
  {
    var n := |c.attempts|;
    var last := c.attempts[n - 1];
    assert c.attempts[..n] == c.attempts;
    AttemptsBalance(hasDataPlane, request, c.start, c.attempts, abortAt, n);
    GatewayCalls(request.isWrite, RemainingAfter(request, c.start, c.attempts), c.gateway, last.end, r, c.end, abortAt);
    assert AttemptAt(hasDataPlane, request, c.start, c.attempts, 0, abortAt);
    assert !Asks(hasDataPlane, request.mode) ==> n == 1 && c.gateway == [] && last.lease.None?;
    assert request.mode != AutoMode ==> c.gateway == [];
    assert c.gateway == [] ==> CallEvents(Gateway, c.gateway) == [];
    hide AttemptsOk, AttemptAt, AttemptOk, Decided, RunOk, NextOf, TrackAll, CountCalls, NoGateway, NoLeases, EventsOf;
    hide CallEvents, Asks, RemainingAfter;
    BalancedJoin(EventsOf(c.attempts), CallEvents(Gateway, c.gateway));
  }

  lemma {:induction false} CountAppend(a: seq<Event>, b: seq<Event>, lease: nat)
    ensures CountAcquired(a + b, lease) == CountAcquired(a, lease) + CountAcquired(b, lease)
  {
    if b == [] {
      assert a + b == a;
    } else {
      CountAppend(a, b[..|b| - 1], lease);
      assert (a + b)[..|a + b| - 1] == a + b[..|b| - 1];
    }
  }

  lemma {:induction false} NothingAcquired(events: seq<Event>, lease: nat)
    requires forall e <- events :: !e.Acquired?
    ensures CountAcquired(events, lease) == 0
  {
    if events != [] {
      NothingAcquired(events[..|events| - 1], lease);
    }
  }

  lemma {:induction false} AttemptAcquires(rec: AttemptRec, lease: nat)
    ensures CountAcquired(AttemptEvents(rec), lease) == if rec.lease == Some(lease) then 1 else 0
  {
    var acquired := AcquireEvents(rec.lease);
    var rest := CallEvents(ViaOf(rec.lease), rec.tries) +
                if rec.refused then [] else FinishEvents(rec.lease, FailureOf(rec.answer));
    NothingAcquired(rest, lease);
    CountAppend(acquired, rest, lease);
    assert AttemptEvents(rec) == acquired + rest;
    assert acquired != [] ==> acquired[..0] == [];
    hide CallEvents, FinishEvents;
  }

  /** The leases of a call's attempts are numbered one after another. */
  lemma {:induction false} AttemptsAcquire(connects: nat -> Connect, from: nat, leases: nat, attempts: seq<AttemptRec>,
                                           lease: nat)
    requires AskedInTurn(connects, from, leases, attempts)
    ensures CountAcquired(EventsOf(attempts), lease) <= if leases <= lease < leases + |attempts| then 1 else 0
  {
    if attempts != [] {
      var n := |attempts| - 1;
      var before, rec := attempts[..n], attempts[n];
      AttemptsAcquire(connects, from, leases, before, lease);
      AttemptAcquires(rec, lease);
      CountAppend(EventsOf(before), AttemptEvents(rec), lease);
      assert rec.lease.Some? ==> rec.lease.value == leases + n;
      hide AttemptEvents;
    }
  }

  /** No lease is acquired twice in a call, and one that is acquired is released once. */
  lemma {:induction false} NoLeaseTwice(
      hasDataPlane: bool, request: Request, c: FileCall, r: Answer, abortAt: Option<real>, connects: nat -> Connect,
      from: nat, leases: nat, lease: nat)
    requires CallOk(hasDataPlane, request, c, r, abortAt) && AskedInTurn(connects, from, leases, c.attempts)
    ensures CountReleased(CallTrace(c), lease) == CountAcquired(CallTrace(c), lease) <= 1
  {
    EveryCallIsBalanced(hasDataPlane, request, c, r, abortAt);
    EveryLeaseIsReleasedOnce(CallTrace(c), lease);
    AttemptsAcquire(connects, from, leases, c.attempts, lease);
    NothingAcquired(CallEvents(Gateway, c.gateway), lease);
    CountAppend(EventsOf(c.attempts), CallEvents(Gateway, c.gateway), lease);
    hide CallOk, AskedInTurn, EventsOf, CallEvents;
  }

  // ----- Streamed reads ---------------------------------------------------------------------

  /** What one run of the stream yields: its chunks, and the failure that ends it, if any. */
  datatype StreamRun = StreamRun(chunks: seq<nat>, failure: Option<RpcError>)

  /** How the iteration ended for its reader. */
  datatype Ended = Finished | StoppedEarly | Threw(error: RpcError)

  /** The reader got the first chunks of this run, and all of them unless it stopped on the one it wanted last. */
  ghost predicate FromRun(run: StreamRun, delivered: seq<nat>, ended: Ended, wanted: Option<nat>) {
    var stops := wanted.Some? && 1 <= wanted.value <= |run.chunks|;
    if stops then ended == StoppedEarly && delivered == run.chunks[..wanted.value]
    else delivered == run.chunks && ended == if run.failure.Some? then Threw(run.failure.value) else Finished
  }

  /** Yields the chunks of one run until it ends or the reader has had enough. */
  method Yield(run: StreamRun, wanted: Option<nat>) returns (delivered: seq<nat>, ended: Ended)
    ensures FromRun(run, delivered, ended, wanted)
  {
    delivered := [];
    var i := 0;
    while i < |run.chunks|
      invariant 0 <= i <= |run.chunks| && delivered == run.chunks[..i]
      invariant wanted.Some? && wanted.value >= 1 ==> i < wanted.value
    {
      delivered := delivered + [run.chunks[i]];
      i := i + 1;
      if wanted == Some(i) {
        return delivered, StoppedEarly;
      }
    }
    return delivered, if run.failure.Some? then Threw(run.failure.value) else Finished;
  }

  /** One attempt at the stream: what the data plane said, and what the reader got of its run. */
  datatype StreamRec = StreamRec(
    connect: Option<Connect>, lease: Option<nat>, refused: bool, delivered: seq<nat>, ended: Ended)

  function AnswerOf(rec: StreamRec): Answer {
    if rec.ended.Threw? then Fail(rec.ended.error) else Ok(|rec.delivered|)
  }

  /** The trace of one attempt; a run counts as one call. */
  ghost function StreamEvents(rec: StreamRec): seq<Event> {
    if rec.refused then []
    else AcquireEvents(rec.lease) + [Called(ViaOf(rec.lease), AnswerOf(rec))]
         + FinishEvents(rec.lease, FailureOf(AnswerOf(rec)))
  }

  ghost predicate StreamOk(hasDataPlane: bool, mode: Mode, run: StreamRun, wanted: Option<nat>, rec: StreamRec) {
    && (rec.connect.Some? <==> Asks(hasDataPlane, mode))
    && Settles(mode, rec.connect, rec.lease, if rec.refused then FailureOf(AnswerOf(rec)) else None)
    && if rec.refused then rec.delivered == [] && rec.ended.Threw? else FromRun(run, rec.delivered, rec.ended, wanted)
  }

  /** The first attempt is repeated exactly when its lease's run delivered nothing and its shard was retiring. */
  predicate RetriesStream(rec: StreamRec) {
    !rec.refused && rec.lease.Some? && rec.delivered == [] && rec.ended.Threw? && IsRetiring(rec.ended.error)
  }

  /** One attempt at the stream, from its lease to the release. */
  method StreamAttempt(w: Wire, hasDataPlane: bool, mode: Mode, run: StreamRun, wanted: Option<nat>)
    returns (delivered: seq<nat>, ended: Ended, retiring: bool, ghost rec: StreamRec)
    modifies w`now, w`asked, w`leases, w`log
    ensures delivered == rec.delivered && ended == rec.ended && retiring == RetriesStream(rec)
    ensures StreamOk(hasDataPlane, mode, run, wanted, rec)
    ensures w.log == old(w.log) + StreamEvents(rec)
    ensures rec.connect == if Asks(hasDataPlane, mode) then Some(w.connects(old(w.asked))) else None
    ensures w.asked == old(w.asked) + (if rec.connect.Some? then 1 else 0)
  {
    var lease, refusal;
    ghost var connect;
    lease, refusal, connect := AcquireFileLease(w, hasDataPlane, mode);
    if refusal.Some? {
      delivered, ended, retiring := [], Threw(refusal.value), false;
      rec := StreamRec(connect, lease, true, delivered, ended);
      return;
    }
    delivered, ended := Yield(run, wanted);
    rec := StreamRec(connect, lease, false, delivered, ended);
    hide Settles, FromRun;
    w.log := w.log + [Called(ViaOf(lease), AnswerOf(rec))];
    Finish(w, lease, if ended.Threw? then Some(ended.error) else None);
    retiring := lease.Some? && ended.Threw? && delivered == [] && IsRetiring(ended.error);
  }

  lemma {:induction false} StreamBalances(rec: StreamRec)
    requires rec.refused ==> rec.lease.None?
    ensures Balanced(StreamEvents(rec)) && CountCalls(StreamEvents(rec)) == if rec.refused then 0 else 1
    ensures rec.lease.Some? || rec.refused ==> NoGateway(StreamEvents(rec))
    ensures rec.lease.None? ==> NoLeases(StreamEvents(rec))
  {
    if !rec.refused {
      var called := [Called(ViaOf(rec.lease), AnswerOf(rec))];
      var acquired, last := AcquireEvents(rec.lease), FinishEvents(rec.lease, FailureOf(AnswerOf(rec)));
      assert acquired[..0] == [] && called[..0] == [];
      TrackAppend(Free, acquired, called);
      FinishFrees(TrackAll(Free, acquired + called), rec.lease, FailureOf(AnswerOf(rec)));
      TrackAppend(Free, acquired + called, last);
    }
  }

  ghost function StreamTrace(recs: seq<StreamRec>): seq<Event> {
    if recs == [] then [] else StreamTrace(recs[..|recs| - 1]) + StreamEvents(recs[|recs| - 1])
  }

  /** Each attempt got the next answer of the data plane and its own run. */
  ghost predicate StreamsOk(hasDataPlane: bool, mode: Mode, runs: nat -> StreamRun, wanted: Option<nat>,
                            connects: nat -> Connect, from: nat, recs: seq<StreamRec>)
  {
    forall i | 0 <= i < |recs| :: StreamAt(hasDataPlane, mode, runs, wanted, connects, from, recs, i)
  }

  ghost predicate StreamAt(hasDataPlane: bool, mode: Mode, runs: nat -> StreamRun, wanted: Option<nat>,
                           connects: nat -> Connect, from: nat, recs: seq<StreamRec>, i: nat)
    requires i < |recs|
  {
    && StreamOk(hasDataPlane, mode, runs(i), wanted, recs[i])
    && (recs[i].connect.Some? ==> recs[i].connect.value == connects(from + i))
  }

  lemma {:induction false} OneMoreStream(
      hasDataPlane: bool, mode: Mode, runs: nat -> StreamRun, wanted: Option<nat>, connects: nat -> Connect,
      from: nat, recs: seq<StreamRec>, rec: StreamRec)
    requires StreamsOk(hasDataPlane, mode, runs, wanted, connects, from, recs)
    requires StreamOk(hasDataPlane, mode, runs(|recs|), wanted, rec)
    requires rec.connect.Some? ==> rec.connect.value == connects(from + |recs|)
    ensures StreamsOk(hasDataPlane, mode, runs, wanted, connects, from, recs + [rec])
    ensures StreamTrace(recs + [rec]) == StreamTrace(recs) + StreamEvents(rec)
  {
    hide StreamOk, StreamEvents;
    var all := recs + [rec];
    assert all[..|all| - 1] == recs;
    forall i | 0 <= i < |all| ensures StreamAt(hasDataPlane, mode, runs, wanted, connects, from, all, i) {
      assert i < |recs| ==> StreamAt(hasDataPlane, mode, runs, wanted, connects, from, recs, i);
    }
  }

  /** A second attempt is made exactly after a first one that retries, and the reader has what the last one gave it. */
  ghost predicate StreamEnds(recs: seq<StreamRec>, delivered: seq<nat>, ended: Ended) {
    && 1 <= |recs| <= 2 && (|recs| == 2 <==> RetriesStream(recs[0]))
    && (var last := recs[|recs| - 1]; delivered == last.delivered && ended == last.ended)
  }

  lemma {:induction false} LastStream(recs: seq<StreamRec>, rec: StreamRec)
    requires if recs == [] then !RetriesStream(rec) else |recs| == 1 && RetriesStream(recs[0])
    ensures StreamEnds(recs + [rec], rec.delivered, rec.ended)
  {
  }

  /** One turn of the loop. */
  method StreamTurn(w: Wire, hasDataPlane: bool, mode: Mode, runs: nat -> StreamRun, wanted: Option<nat>, attempt: nat,
                    ghost m: Mark, ghost before: seq<StreamRec>)
    returns (delivered: seq<nat>, ended: Ended, retiring: bool, ghost rec: StreamRec)
    requires |before| == attempt && w.log == m.log + StreamTrace(before)
    requires StreamsOk(hasDataPlane, mode, runs, wanted, w.connects, m.asked, before)
    requires Asks(hasDataPlane, mode) ==> w.asked == m.asked + attempt
    modifies w`now, w`asked, w`leases, w`log
    ensures w.log == m.log + StreamTrace(before + [rec])
    ensures StreamsOk(hasDataPlane, mode, runs, wanted, w.connects, m.asked, before + [rec])
    ensures Asks(hasDataPlane, mode) ==> w.asked == m.asked + attempt + 1
    ensures delivered == rec.delivered && ended == rec.ended && retiring == RetriesStream(rec)
  {
    hide StreamTrace, StreamEvents, StreamOk, StreamsOk, RetriesStream, AnswerOf;
    delivered, ended, retiring, rec := StreamAttempt(w, hasDataPlane, mode, runs(attempt), wanted);
    OneMoreStream(hasDataPlane, mode, runs, wanted, w.connects, m.asked, before, rec);
    Regroup(m.log, StreamTrace(before), StreamEvents(rec));
  }

  /**
   `selectedReadStream`, with a reader that may stop once it has the chunks it wants. What
   it got all came from the last run: an earlier one delivered nothing.
   */
  method SelectedReadStream(w: Wire, hasDataPlane: bool, mode: Mode, runs: nat -> StreamRun, wanted: Option<nat>)
    returns (delivered: seq<nat>, ended: Ended, ghost recs: seq<StreamRec>)
    modifies w`now, w`asked, w`leases, w`log
    ensures StreamEnds(recs, delivered, ended)
    ensures StreamsOk(hasDataPlane, mode, runs, wanted, w.connects, old(w.asked), recs)
    ensures w.log == old(w.log) + StreamTrace(recs)
  {
    ghost var m := MarkOf(w);
    recs := [];
    assert StreamTrace(recs) == [] && StreamsOk(hasDataPlane, mode, runs, wanted, w.connects, m.asked, recs);
    hide StreamTrace, StreamsOk, RetriesStream, StreamEnds, MarkOf;
    var attempt := 0;
    while attempt < 2
      invariant 0 <= attempt == |recs| <= 1
      invariant attempt == 1 ==> RetriesStream(recs[0])
      invariant StreamsOk(hasDataPlane, mode, runs, wanted, w.connects, m.asked, recs)
      invariant Asks(hasDataPlane, mode) ==> w.asked == m.asked + attempt
      invariant w.log == m.log + StreamTrace(recs)
      decreases 2 - attempt
    {
      var retiring;
      ghost var rec;
      delivered, ended, retiring, rec := StreamTurn(w, hasDataPlane, mode, runs, wanted, attempt, m, recs);
      if attempt != 0 || !retiring {
        LastStream(recs, rec);
        return delivered, ended, recs + [rec];
      }
      recs := recs + [rec];
      attempt := attempt + 1;
    }
  }

  /** A streamed read releases every lease once, makes one run an attempt, and in direct mode avoids the gateway. */
  lemma {:induction false} EveryStreamIsBalanced(
      hasDataPlane: bool, mode: Mode, runs: nat -> StreamRun, wanted: Option<nat>, connects: nat -> Connect,
      from: nat, recs: seq<StreamRec>)
    requires StreamsOk(hasDataPlane, mode, runs, wanted, connects, from, recs)
    ensures Balanced(StreamTrace(recs)) && CountCalls(StreamTrace(recs)) <= |recs|
    ensures hasDataPlane && mode == DirectMode ==> NoGateway(StreamTrace(recs))
    ensures !Asks(hasDataPlane, mode) ==> NoLeases(StreamTrace(recs))
  {
    if recs != [] {
      var n := |recs| - 1;
      var before, rec := recs[..n], recs[n];
      assert StreamAt(hasDataPlane, mode, runs, wanted, connects, from, recs, n);
      assert hasDataPlane && mode == DirectMode ==> rec.lease.Some? || rec.refused;
      assert !Asks(hasDataPlane, mode) ==> rec.lease.None?;
      hide StreamOk;
      forall i | 0 <= i < n ensures StreamAt(hasDataPlane, mode, runs, wanted, connects, from, before, i) {
        assert StreamAt(hasDataPlane, mode, runs, wanted, connects, from, recs, i);
      }
      EveryStreamIsBalanced(hasDataPlane, mode, runs, wanted, connects, from, before);
      hide StreamEvents, TrackAll, CountCalls, NoGateway, NoLeases, StreamsOk, StreamAt;
      StreamBalances(rec);
      TrackAppend(Free, StreamTrace(before), StreamEvents(rec));
      NoGatewayAppend(StreamTrace(before), StreamEvents(rec));
      NoLeasesAppend(StreamTrace(before), StreamEvents(rec));
    }
  }
}
