/** The event loop of `runInSandbox` (src/sandbox.ts): a guest that runs jobs and dispatches host
    calls, host calls that complete while the loop waits, and a deadline. One step is one
    uninterrupted stretch of host code; what the guest and the host calls do is the step's choice. */
module EventLoop {
  import opened Common

  datatype Settled = Json(text: string) | Nothing | NotSerializable(message: string) | Threw(message: string)

  datatype Failure =
    | Timeout
    | NothingCanSettle
    | EndedUnsettled
    | Exception(message: string)
    | Unserializable(message: string)
    | TooLarge
    | Stopped(message: string)

  datatype Result = Value(text: string) | NoValue | Failed(failure: Failure)
  datatype Outcome = Outcome(result: Result, timedOut: bool)

  /** A host call's promise chain: the work, then the guest's promise settled, then `finally`. */
  datatype Phase = Running | Answered | Done

  datatype Place =
    | Compiling
    | Starting
    | Top                             // at the loop's condition
    | Ran                             // after `executePendingJobs`
    | Asleep(id: nat, resolved: bool) // awaiting the loop's own promise
    | Left                            // past the loop, or in the handler of a host-level failure
    | Draining(snapshot: set<nat>)    // awaiting `allSettled` of the calls then in flight
    | Returned(outcome: Outcome)

  datatype State = State(
    at: Place,
    now: nat,
    settled: Option<Settled>,
    interrupted: bool,
    loopError: Option<Failure>,
    poisoned: Option<Failure>,
    calls: seq<Phase>,
    inflight: set<nat>,
    jobs: nat,
    wake: Option<nat>,
    sleeps: nat,
    alive: bool)

  datatype Config = Config(deadline: nat, maxBytes: nat, bytes: string -> nat)

  const INITIAL := State(Compiling, 0, None, false, None, None, [], {}, 0, None, 0, true)

  /** What one entry into the guest does: calls it dispatches, jobs it leaves pending, values it
      reports, whether the interrupt handler stops it, and the error it ends with. */
  datatype Work = Work(dispatched: nat, jobs: nat, reports: seq<Settled>, stopped: bool, error: Option<string>)

  const IDLE := Work(0, 0, [], false, None)

  datatype Action =
    | Tick(elapsed: nat)
    | Compile(work: Work)
    | Start(work: Work)
    | Jobs(work: Work)
    | Check
    | Leave
    | Crash(work: Work, message: string) // a host-level failure inside the WebAssembly module, some way into the work
    | Timer
    | Resume
    | Answer(call: nat, jobs: nat)
    | Finally(call: nat)
    | Drained

  // ---------------------------------------------------------------- pieces

  function Classify(message: string, interrupted: bool): Failure {
    if interrupted then Timeout else Exception(message)
  }

  /** `settle`: how the run ended. */
  function Settle(cfg: Config, settled: Option<Settled>, loopError: Option<Failure>, interrupted: bool): Outcome {
    if interrupted then Outcome(Failed(Timeout), true)
    else if loopError.Some? then Outcome(Failed(loopError.value), false)
    else if settled.None? then Outcome(Failed(EndedUnsettled), false)
    else
      match settled.value
      case Nothing => Outcome(NoValue, false)
      case NotSerializable(m) => Outcome(Failed(Unserializable(m)), false)
      case Json(text) => Outcome(if cfg.bytes(text) > cfg.maxBytes then Failed(TooLarge) else Value(text), false)
      case Threw(m) => Outcome(Failed(Exception(m)), false)
  }

  /** The host's `settle` function, called for each report in turn: the first one counts. */
  function Report(settled: Option<Settled>, reports: seq<Settled>): Option<Settled>
    decreases |reports|
  {
    if reports == [] then settled
    else Report(if settled.Some? then settled else Some(reports[0]), reports[1..])
  }

  /** The guest runs: the interrupt handler stops it only past the deadline. */
  function Enter(cfg: Config, s: State, work: Work): Option<State> {
    if work.stopped && s.now <= cfg.deadline then None
    else
      var calls := s.calls + seq(work.dispatched, _ => Running);
      Some(s.(
        interrupted := s.interrupted || work.stopped,
        settled := Report(s.settled, work.reports),
        calls := calls,
        inflight := s.inflight + (set i: nat | |s.calls| <= i < |calls| && calls[i] == Running),
        jobs := work.jobs))
  }

  function Finish(cfg: Config, s: State): State {
    s.(alive := false, at := Returned(
      if s.poisoned.Some? then Settle(cfg, None, s.poisoned, s.interrupted)
      else Settle(cfg, s.settled, s.loopError, s.interrupted)))
  }

  predicate Waiting(p: Place) {
    p.Asleep? || p.Draining? || p.Returned?
  }

  // ---------------------------------------------------------------- steps

  /** Evaluating the snippet's text only makes the function: it runs none of it. */
  function DoCompile(cfg: Config, s: State, work: Work): Option<State> {
    if s.at != Compiling || work.(stopped := false, error := None) != IDLE then None
    else
      var e := Enter(cfg, s, work);
      if e.None? then None
      else if work.error.None? then Some(e.value.(at := Starting))
      else
        var failure := Classify(work.error.value, e.value.interrupted);
        Some(e.value.(loopError := Some(failure), alive := false,
                      at := Returned(Outcome(Failed(failure), e.value.interrupted))))
  }

  function DoStart(cfg: Config, s: State, work: Work): Option<State> {
    if s.at != Starting then None
    else
      var e := Enter(cfg, s, work);
      if e.None? then None
      else Some(e.value.(at := Top, loopError := if work.error.None? then None else Some(Classify(work.error.value, e.value.interrupted))))
  }

  function DoJobs(cfg: Config, s: State, work: Work): Option<State> {
    if s.at != Top || s.loopError.Some? || s.settled.Some? || (s.jobs == 0 && work != IDLE) then None
    else
      var e := Enter(cfg, s, work);
      if e.None? then None
      else if work.error.None? then Some(e.value.(at := Ran))
      else Some(e.value.(at := Left, loopError := Some(Classify(work.error.value, e.value.interrupted))))
  }

  /** From the end of `executePendingJobs` to the next turn, the wait, or the way out. */
  function DoCheck(cfg: Config, s: State): Option<State> {
    if s.at != Ran then None
    else if s.settled.Some? || s.interrupted then Some(s.(at := Left))
    else if s.now > cfg.deadline then Some(s.(at := Left, interrupted := true))
    else if s.jobs > 0 then Some(s.(at := Top))
    else if s.inflight == {} then Some(s.(at := Left, loopError := Some(NothingCanSettle)))
    else Some(s.(at := Asleep(s.sleeps, false), wake := Some(s.sleeps), sleeps := s.sleeps + 1))
  }

  function DoLeave(cfg: Config, s: State): Option<State> {
    if s.at == Top && (s.loopError.Some? || s.settled.Some?) then Some(s.(at := Left))
    else if s.at == Left then Some(if s.interrupted then s.(at := Draining(s.inflight)) else Finish(cfg, s))
    else None
  }

  function DoCrash(cfg: Config, s: State, work: Work, message: string): Option<State> {
    var possible := match s.at
      case Compiling => work.(stopped := false) == IDLE
      case Starting => true
      case Top => s.loopError.None? && s.settled.None? && (s.jobs > 0 || work == IDLE)
      case _ => false;
    var e := Enter(cfg, s, work);
    if !possible || e.None? then None else Some(e.value.(at := Left, poisoned := Some(Stopped(message))))
  }

  /** The guest's promise is settled, which may queue jobs; not after the run has ended. */
  function DoAnswer(s: State, call: nat, jobs: nat): Option<State> {
    if call >= |s.calls| || s.calls[call] != Running || !Waiting(s.at) then None
    else Some(s.(calls := s.calls[call := Answered], jobs := s.jobs + if s.alive then jobs else 0))
  }

  /** The call is over: it leaves the set, and whoever waits is woken. */
  function DoFinally(s: State, call: nat): Option<State> {
    if call >= |s.calls| || s.calls[call] != Answered || !Waiting(s.at) then None
    else
      Some(s.(
        calls := s.calls[call := Done],
        inflight := s.inflight - {call},
        wake := None,
        at := if s.at.Asleep? && s.wake == Some(s.at.id) then Asleep(s.at.id, true) else s.at))
  }

  function DoDrained(cfg: Config, s: State): Option<State> {
    if s.at.Draining? && forall i | i in s.at.snapshot :: i < |s.calls| && s.calls[i] == Done then Some(Finish(cfg, s))
    else None
  }

  function Do(cfg: Config, s: State, a: Action): Option<State> {
    match a
    case Tick(elapsed) => Some(s.(now := s.now + elapsed))
    case Compile(work) => DoCompile(cfg, s, work)
    case Start(work) => DoStart(cfg, s, work)
    case Jobs(work) => DoJobs(cfg, s, work)
    case Check => DoCheck(cfg, s)
    case Leave => DoLeave(cfg, s)
    case Crash(work, message) => DoCrash(cfg, s, work, message)
    case Timer => if s.at.Asleep? then Some(s.(at := Asleep(s.at.id, true))) else None
    case Resume => if s.at.Asleep? && s.at.resolved then Some(s.(at := Top)) else None
    case Answer(call, jobs) => DoAnswer(s, call, jobs)
    case Finally(call) => DoFinally(s, call)
    case Drained => DoDrained(cfg, s)
  }

  /** Where a schedule leads, if every one of its steps is possible. */
  function Run(cfg: Config, s: State, schedule: seq<Action>): Option<State>
    decreases |schedule|
  {
    if schedule == [] then Some(s)
    else
      var before := Run(cfg, s, schedule[..|schedule| - 1]);
      if before.None? then None else Do(cfg, before.value, schedule[|schedule| - 1])
  }

  // ---------------------------------------------------------------- what every step keeps

  /** The loop's own bookkeeping says what is true of the calls. */
  predicate Tracks(s: State) {
    && (forall i | i in s.inflight :: i < |s.calls|)
    && (forall i | 0 <= i < |s.calls| :: i in s.inflight <==> s.calls[i] != Done)
  }

  /** A wait has a wake-up: some call is in flight, its completion will wake this very wait, and
      when a job is already there, the completion is under way. */
  ghost predicate WakeComing(s: State) {
    s.at.Asleep? && !s.at.resolved ==>
      && s.wake == Some(s.at.id)
      && s.inflight != {}
      && (s.jobs > 0 ==> exists i | 0 <= i < |s.calls| :: s.calls[i] == Answered)
  }

  predicate Stuck(s: State) {
    s.jobs == 0 && s.inflight == {} && s.settled.None? && !s.interrupted
  }

  predicate Flags(cfg: Config, s: State) {
    && (s.interrupted ==> s.now > cfg.deadline)
    && (s.loopError == Some(NothingCanSettle) ==> Stuck(s) && (s.at == Left || s.at.Returned?))
    && (s.poisoned.Some? ==> s.poisoned.value.Stopped? && (s.at == Left || s.at.Draining? || s.at.Returned?))
    && (s.loopError == Some(Timeout) ==> s.interrupted)
    && (s.at == Compiling || s.at == Starting ==> s.calls == [] && s.loopError.None? && s.settled.None?)
    && (s.at == Ran || s.at.Asleep? ==> s.loopError.None?)
    && (s.at.Asleep? ==> s.settled.None? && !s.interrupted)
    && (s.alive <==> !s.at.Returned?)
  }

  /** Nothing is in flight beyond what the drain waits for, and nothing at all after it. */
  predicate Drains(s: State) {
    && (s.at.Draining? ==> s.interrupted && s.inflight <= s.at.snapshot && forall i | i in s.at.snapshot :: i < |s.calls|)
    && (s.at.Returned? && s.interrupted ==> s.inflight == {})
  }

  /** A returned outcome is the one `settle` gives, or the compile error. */
  predicate Reported(cfg: Config, s: State) {
    s.at.Returned? ==>
      && s.at.outcome.timedOut == s.interrupted
      && s.at.outcome == Settle(cfg, if s.poisoned.Some? then None else s.settled,
                                if s.poisoned.Some? then s.poisoned else s.loopError, s.interrupted)
  }

  ghost predicate Inv(cfg: Config, s: State) {
    Tracks(s) && WakeComing(s) && Flags(cfg, s) && Drains(s) && Reported(cfg, s)
  }

  lemma GuestKeeps(cfg: Config, s: State, a: Action, t: State)
    requires Inv(cfg, s) && Do(cfg, s, a) == Some(t) && (a.Compile? || a.Start? || a.Jobs? || a.Crash?)
    ensures Inv(cfg, t)
  {
  }

  lemma LoopKeeps(cfg: Config, s: State, a: Action, t: State)
    requires Inv(cfg, s) && Do(cfg, s, a) == Some(t) && (a.Tick? || a.Check? || a.Leave? || a.Timer? || a.Resume? || a.Drained?)
    ensures Inv(cfg, t)
  {
  }

  lemma CallKeeps(cfg: Config, s: State, a: Action, t: State)
    requires Inv(cfg, s) && Do(cfg, s, a) == Some(t) && (a.Answer? || a.Finally?)
    ensures Inv(cfg, t)
  {
  }

  lemma StepKeeps(cfg: Config, s: State, a: Action)
    requires Inv(cfg, s) && Do(cfg, s, a).Some?
    ensures Inv(cfg, Do(cfg, s, a).value)
  {
    var t := Do(cfg, s, a).value;
    if a.Compile? || a.Start? || a.Jobs? || a.Crash? { GuestKeeps(cfg, s, a, t); }
    else if a.Answer? || a.Finally? { CallKeeps(cfg, s, a, t); }
    else { LoopKeeps(cfg, s, a, t); }
  }

  lemma {:induction false} RunKeeps(cfg: Config, schedule: seq<Action>)
    requires Run(cfg, INITIAL, schedule).Some?
    ensures Inv(cfg, Run(cfg, INITIAL, schedule).value)
    decreases |schedule|
  {
    if schedule != [] {
      var a, before := schedule[|schedule| - 1], schedule[..|schedule| - 1];
      RunKeeps(cfg, before);
      StepKeeps(cfg, Run(cfg, INITIAL, before).value, a);
      hide Do, Inv;
    }
  }

  // ---------------------------------------------------------------- over whole runs

  /** Everything the guest reports along a schedule, in order. */
  function Reports(schedule: seq<Action>): seq<Settled>
    decreases |schedule|
  {
    if schedule == [] then []
    else
      var rest := Reports(schedule[..|schedule| - 1]);
      match schedule[|schedule| - 1]
      case Start(work) => rest + work.reports
      case Jobs(work) => rest + work.reports
      case Crash(work, _) => rest + work.reports
      case _ => rest
  }

  lemma {:induction false} ReportFirst(settled: Option<Settled>, reports: seq<Settled>)
    ensures Report(settled, reports) == if settled.Some? then settled else if reports == [] then None else Some(reports[0])
    decreases |reports|
  {
    if reports != [] {
      ReportFirst(if settled.Some? then settled else Some(reports[0]), reports[1..]);
    }
  }

  /** The first report wins, whatever is reported later. */
  lemma {:induction false} FirstSettleWins(cfg: Config, schedule: seq<Action>)
    requires Run(cfg, INITIAL, schedule).Some?
    ensures Run(cfg, INITIAL, schedule).value.settled == if Reports(schedule) == [] then None else Some(Reports(schedule)[0])
    decreases |schedule|
  {
    if schedule != [] {
      var before := schedule[..|schedule| - 1];
      FirstSettleWins(cfg, before);
      RunKeeps(cfg, before);
      var s := Run(cfg, INITIAL, before).value;
      match schedule[|schedule| - 1]
      case Start(work) => ReportFirst(s.settled, work.reports);
      case Jobs(work) => ReportFirst(s.settled, work.reports);
      case Compile(work) => ReportFirst(s.settled, work.reports);
      case Crash(work, _) => ReportFirst(s.settled, work.reports);
      case _ =>
    }
  }

  /** A result without an error is what was reported, within the cap. */
  predicate Earned(cfg: Config, result: Result, first: Settled) {
    if result.Value? then first == Json(result.text) && cfg.bytes(result.text) <= cfg.maxBytes
    else result.NoValue? && first == Nothing
  }

  /** A run ends with a value only if that was its first report, it fits, no error came first, and
      the deadline never stopped the run; once it did, the outcome is the timeout. */
  lemma OutcomeMeaning(cfg: Config, schedule: seq<Action>)
    requires Run(cfg, INITIAL, schedule).Some?
    ensures var s := Run(cfg, INITIAL, schedule).value;
      s.at.Returned? ==>
        && (s.interrupted ==> s.at.outcome == Outcome(Failed(Timeout), true) && s.now > cfg.deadline)
        && (s.at.outcome.timedOut ==> s.interrupted)
        && (s.at.outcome.result.Value? || s.at.outcome.result.NoValue? ==>
              && !s.interrupted && s.poisoned.None? && s.loopError.None? && Reports(schedule) != []
              && Earned(cfg, s.at.outcome.result, Reports(schedule)[0]))
  {
    RunKeeps(cfg, schedule);
    FirstSettleWins(cfg, schedule);
  }

  /** The messages of the errors the guest's entries ended with, and of the host-level failures. */
  function Errors(schedule: seq<Action>): seq<string>
    decreases |schedule|
  {
    if schedule == [] then []
    else
      var rest := Errors(schedule[..|schedule| - 1]);
      match schedule[|schedule| - 1]
      case Compile(work) => if work.error.Some? then rest + [work.error.value] else rest
      case Start(work) => if work.error.Some? then rest + [work.error.value] else rest
      case Jobs(work) => if work.error.Some? then rest + [work.error.value] else rest
      case _ => rest
  }

  function Crashes(schedule: seq<Action>): seq<string>
    decreases |schedule|
  {
    if schedule == [] then []
    else
      var rest := Crashes(schedule[..|schedule| - 1]);
      match schedule[|schedule| - 1]
      case Crash(_, message) => rest + [message]
      case _ => rest
  }

  /** The interrupt handler stops the guest at this step. */
  predicate StopsAt(a: Action) {
    (a.Compile? || a.Start? || a.Jobs? || a.Crash?) && a.work.stopped
  }

  predicate Stops(schedule: seq<Action>) {
    exists k | 0 <= k < |schedule| :: StopsAt(schedule[k])
  }

  /** What the loop has noted of errors, failures and interrupts is what happened, and it is left
      only for a reason. */
  predicate Noted(s: State, errors: seq<string>, crashes: seq<string>, stops: bool) {
    && (if crashes == [] then s.poisoned.None? else s.poisoned == Some(Stopped(crashes[0])))
    && (s.loopError.None? ==> errors == [])
    && (s.loopError.Some? ==>
          if errors == [] then s.loopError.value == NothingCanSettle else s.loopError.value == if s.interrupted then Timeout else Exception(errors[0]))
    && (stops ==> s.interrupted)
    && (s.at == Left || s.at.Draining? || s.at.Returned? ==> s.interrupted || s.poisoned.Some? || s.loopError.Some? || s.settled.Some?)
    && (s.loopError == Some(NothingCanSettle) ==> s.settled.None?)
  }

  lemma NotedStep(cfg: Config, s: State, a: Action, t: State, errors: seq<string>, crashes: seq<string>, stops: bool)
    requires Inv(cfg, s) && Do(cfg, s, a) == Some(t) && Noted(s, errors, crashes, stops)
    ensures a.Compile? || a.Start? || a.Jobs? ==>
      Noted(t, if a.work.error.Some? then errors + [a.work.error.value] else errors, crashes, stops || a.work.stopped)
    ensures a.Crash? ==> Noted(t, errors, crashes + [a.message], stops || a.work.stopped)
    ensures !a.Compile? && !a.Start? && !a.Jobs? && !a.Crash? ==> Noted(t, errors, crashes, stops)
  {
  }

  lemma {:induction false} RunNoted(cfg: Config, schedule: seq<Action>)
    requires Run(cfg, INITIAL, schedule).Some?
    ensures Noted(Run(cfg, INITIAL, schedule).value, Errors(schedule), Crashes(schedule), Stops(schedule))
    decreases |schedule|
  {
    if schedule != [] {
      var n := |schedule| - 1;
      var a, before := schedule[n], schedule[..n];
      RunNoted(cfg, before);
      RunKeeps(cfg, before);
      var s := Run(cfg, INITIAL, before).value;
      NotedStep(cfg, s, a, Do(cfg, s, a).value, Errors(before), Crashes(before), Stops(before));
      StopsSnoc(schedule);
      hide Do, Inv, Noted, Stops;
    }
  }

  lemma StopsSnoc(schedule: seq<Action>)
    requires schedule != []
    ensures var n := |schedule| - 1;
      Stops(schedule) <==> Stops(schedule[..n]) || StopsAt(schedule[n])
  {
    var n := |schedule| - 1;
    assert forall k | 0 <= k < n :: schedule[..n][k] == schedule[k];
  }

  /** What a first report comes to. */
  predicate Told(cfg: Config, first: Settled, result: Result) {
    match first
    case Json(text) => if cfg.bytes(text) <= cfg.maxBytes then result == Value(text) else result == Failed(TooLarge)
    case Nothing => result == NoValue
    case NotSerializable(m) => result == Failed(Unserializable(m))
    case Threw(m) => result == Failed(Exception(m))
  }

  /** How every run ends. Stopped or past its deadline, it timed out. Otherwise the outcome is the
      host-level failure, if there was one; else the error an entry ended with; else the first report
      decides; and without any report, nothing could settle the snippet's promise. */
  lemma Decided(cfg: Config, schedule: seq<Action>)
    requires Run(cfg, INITIAL, schedule).Some? && Run(cfg, INITIAL, schedule).value.at.Returned?
    ensures var s := Run(cfg, INITIAL, schedule).value;
      var outcome, errors, crashes, reports := s.at.outcome, Errors(schedule), Crashes(schedule), Reports(schedule);
      && (Stops(schedule) ==> s.interrupted)
      && (if s.interrupted then outcome == Outcome(Failed(Timeout), true)
          else
            && !outcome.timedOut
            && (if crashes != [] then outcome.result == Failed(Stopped(crashes[0]))
                else if errors != [] then outcome.result == Failed(Exception(errors[0]))
                else if reports == [] then outcome.result == Failed(NothingCanSettle)
                else Told(cfg, reports[0], outcome.result)))
  {
    RunKeeps(cfg, schedule);
    RunNoted(cfg, schedule);
    FirstSettleWins(cfg, schedule);
    hide Run, Errors, Crashes, Reports, Stops, Tracks, WakeComing, Drains;
  }

  /** A snippet that reports its value at once, within the cap, has it returned. */
  lemma ValueReturned(cfg: Config, text: string)
    requires cfg.bytes(text) <= cfg.maxBytes
    ensures var s := Run(cfg, INITIAL, [Compile(IDLE), Start(IDLE.(reports := [Json(text)])), Leave, Leave]);
      s.Some? && s.value.at == Returned(Outcome(Value(text), false))
  {
    var work := IDLE.(reports := [Json(text)]);
    var s := INITIAL;
    EnterQuiet(cfg, s, IDLE);
    EnterQuiet(cfg, s.(at := Starting), work);
    ReportFirst(None, []);
    ReportFirst(None, [Json(text)]);
    hide Run, Enter, Report;
    assert Do(cfg, s, Compile(IDLE)) == Some(s.(at := Starting));
    var said := s.(at := Top, settled := Some(Json(text)));
    assert Do(cfg, s.(at := Starting), Start(work)) == Some(said);
    assert Do(cfg, said, Leave) == Some(said.(at := Left));
    RunFour(cfg, s, Compile(IDLE), Start(work), Leave, Leave);
  }

  /** A snippet that awaits one host call and then reports its value, within the cap, has it returned;
      one that does nothing is told that nothing can settle it. */
  lemma AwaitedReturned(cfg: Config, text: string)
    requires cfg.bytes(text) <= cfg.maxBytes
    ensures var s := Run(cfg, INITIAL, [Compile(IDLE), Start(IDLE.(dispatched := 1)), Jobs(IDLE), Check, Answer(0, 1), Finally(0), Resume,
                                        Jobs(IDLE.(reports := [Json(text)])), Check, Leave]);
      s.Some? && s.value.at == Returned(Outcome(Value(text), false))
    ensures var s := Run(cfg, INITIAL, [Compile(IDLE), Start(IDLE), Jobs(IDLE), Check, Leave]);
      s.Some? && s.value.at == Returned(Outcome(Failed(NothingCanSettle), false))
  {
    var waits := [Compile(IDLE), Start(IDLE.(dispatched := 1)), Jobs(IDLE), Check];
    var wakes := [Answer(0, 1), Finally(0), Resume, Jobs(IDLE.(reports := [Json(text)]))];
    hide Do;
    RunWaits(cfg);
    RunWakes(cfg, text);
    hide Run;
    RunConcat(cfg, INITIAL, waits, wakes);
    RunConcat(cfg, INITIAL, waits + wakes, [Check, Leave]);
    assert waits + wakes + [Check, Leave] == [Compile(IDLE), Start(IDLE.(dispatched := 1)), Jobs(IDLE), Check, Answer(0, 1), Finally(0), Resume,
                                              Jobs(IDLE.(reports := [Json(text)])), Check, Leave];
    RunIdles(cfg);
  }

  predicate EndsWith(cfg: Config, schedule: seq<Action>, outcome: Outcome) {
    var s := Run(cfg, INITIAL, schedule);
    s.Some? && s.value.at == Returned(outcome)
  }

  /** A snippet that does not compile ends with the error, past the deadline with the timeout; a failure
      of the module itself in the middle of the first entry ends with its message. */
  lemma FailuresReturned(cfg: Config, message: string, elapsed: nat)
    requires elapsed > cfg.deadline
    ensures EndsWith(cfg, [Compile(IDLE.(error := Some(message)))], Outcome(Failed(Exception(message)), false))
    ensures EndsWith(cfg, [Tick(elapsed), Compile(IDLE.(stopped := true, error := Some(message)))], Outcome(Failed(Timeout), true))
    ensures EndsWith(cfg, [Compile(IDLE), Crash(IDLE, message), Leave], Outcome(Failed(Stopped(message)), false))
  {
    var s, bad := INITIAL, IDLE.(error := Some(message));
    EnterQuiet(cfg, s, IDLE);
    EnterQuiet(cfg, s, bad);
    EnterQuiet(cfg, s.(at := Starting), IDLE);
    EnterStopped(cfg, s.(now := elapsed), bad.(stopped := true));
    ReportFirst(None, []);
    hide Enter, Report;
    RunOne(cfg, s, [], Compile(bad));
    assert [] + [Compile(bad)] == [Compile(bad)];
    RunTwo(cfg, s, Tick(elapsed), Compile(bad.(stopped := true)));
    hide Run;
    RunTwo(cfg, s, Compile(IDLE), Crash(IDLE, message));
    RunOne(cfg, s, [Compile(IDLE), Crash(IDLE, message)], Leave);
    assert [Compile(IDLE), Crash(IDLE, message)] + [Leave] == [Compile(IDLE), Crash(IDLE, message), Leave];
  }

  /** Past the deadline the interrupt handler may stop any entry. */
  lemma EnterStopped(cfg: Config, s: State, work: Work)
    requires work.dispatched == 0 && work.stopped && s.now > cfg.deadline
    ensures Enter(cfg, s, work) == Some(s.(interrupted := true, settled := Report(s.settled, work.reports), jobs := work.jobs))
  {
    hide Report;
    assert s.calls + seq(0, _ => Running) == s.calls;
    assert Enter(cfg, s, work).value.inflight == s.inflight;
  }

  /** Asleep, with one call in flight. */
  const ONE_CALL := State(Asleep(0, false), 0, None, false, None, None, [Running], {0}, 0, Some(0), 1, true)

  lemma RunFour(cfg: Config, s: State, a: Action, b: Action, c: Action, d: Action)
    requires Do(cfg, s, a).Some?
    requires Do(cfg, Do(cfg, s, a).value, b).Some?
    requires Do(cfg, Do(cfg, Do(cfg, s, a).value, b).value, c).Some?
    ensures Run(cfg, s, [a, b, c, d]) == Do(cfg, Do(cfg, Do(cfg, Do(cfg, s, a).value, b).value, c).value, d)
  {
    hide Do;
    RunTwo(cfg, s, a, b);
    RunOne(cfg, s, [a, b], c);
    RunOne(cfg, s, [a, b, c], d);
    assert [a, b] + [c] == [a, b, c] && [a, b, c] + [d] == [a, b, c, d];
  }

  /** An entry that dispatches nothing, or one call. */
  lemma EnterQuiet(cfg: Config, s: State, work: Work)
    requires work.dispatched == 0 && !work.stopped
    ensures Enter(cfg, s, work) == Some(s.(settled := Report(s.settled, work.reports), jobs := work.jobs))
  {
    hide Report;
    assert s.calls + seq(0, _ => Running) == s.calls;
    assert Enter(cfg, s, work).value.inflight == s.inflight;
  }

  lemma EnterCalls(cfg: Config, s: State, work: Work)
    requires work == IDLE.(dispatched := 1) && s.calls == []
    ensures Enter(cfg, s, work) == Some(s.(calls := [Running], inflight := s.inflight + {0}, jobs := 0, settled := Report(s.settled, [])))
  {
    var calls := s.calls + seq(1, _ => Running);
    assert calls == [Running];
    assert (set i: nat | |s.calls| <= i < |calls| && calls[i] == Running) == {0};
  }

  lemma RunWaits(cfg: Config)
    ensures Run(cfg, INITIAL, [Compile(IDLE), Start(IDLE.(dispatched := 1)), Jobs(IDLE), Check]) == Some(ONE_CALL)
  {
    var s := INITIAL;
    EnterQuiet(cfg, s, IDLE);
    EnterCalls(cfg, s.(at := Starting), IDLE.(dispatched := 1));
    EnterQuiet(cfg, s.(at := Top, calls := [Running], inflight := {0}), IDLE);
    ReportFirst(None, []);
    hide Run, Enter, Report;
    assert Do(cfg, s, Compile(IDLE)) == Some(s.(at := Starting));
    assert {} + {0} == {0};
    var started := s.(at := Top, calls := [Running], inflight := {0});
    assert Do(cfg, s.(at := Starting), Start(IDLE.(dispatched := 1))) == Some(started);
    assert Do(cfg, started, Jobs(IDLE)) == Some(started.(at := Ran));
    RunFour(cfg, s, Compile(IDLE), Start(IDLE.(dispatched := 1)), Jobs(IDLE), Check);
  }

  lemma RunWakes(cfg: Config, text: string)
    requires cfg.bytes(text) <= cfg.maxBytes
    ensures var report := Jobs(IDLE.(reports := [Json(text)]));
      var s := Run(cfg, ONE_CALL, [Answer(0, 1), Finally(0), Resume, report]);
      && s.Some? && var r := Run(cfg, s.value, [Check, Leave]); r.Some? && r.value.at == Returned(Outcome(Value(text), false))
  {
    ReportFirst(None, [Json(text)]);
    var report := Jobs(IDLE.(reports := [Json(text)]));
    var answered := ONE_CALL.(calls := [Answered], jobs := 1);
    assert [Running][0 := Answered] == [Answered] && [Answered][0 := Done] == [Done] && {0} - {0} == {};
    assert Do(cfg, ONE_CALL, Answer(0, 1)) == Some(answered);
    var over := answered.(at := Asleep(0, true), calls := [Done], inflight := {}, wake := None);
    assert Do(cfg, answered, Finally(0)) == Some(over);
    assert Do(cfg, over, Resume) == Some(over.(at := Top));
    EnterQuiet(cfg, over.(at := Top), report.work);
    hide Run, Enter, Report;
    var said := over.(at := Ran, settled := Some(Json(text)), jobs := 0);
    assert Do(cfg, over.(at := Top), report) == Some(said);
    RunFour(cfg, ONE_CALL, Answer(0, 1), Finally(0), Resume, report);
    SaidReturns(cfg, said, text);
  }

  lemma SaidReturns(cfg: Config, said: State, text: string)
    requires cfg.bytes(text) <= cfg.maxBytes
    requires said.at == Ran && said.settled == Some(Json(text)) && !said.interrupted && said.loopError.None? && said.poisoned.None?
    ensures var r := Run(cfg, said, [Check, Leave]); r.Some? && r.value.at == Returned(Outcome(Value(text), false))
  {
    hide Run;
    assert Do(cfg, said, Check) == Some(said.(at := Left));
    RunTwo(cfg, said, Check, Leave);
  }

  lemma RunIdles(cfg: Config)
    ensures var s := Run(cfg, INITIAL, [Compile(IDLE), Start(IDLE), Jobs(IDLE), Check, Leave]);
      s.Some? && s.value.at == Returned(Outcome(Failed(NothingCanSettle), false))
  {
    var s := INITIAL;
    EnterQuiet(cfg, s, IDLE);
    EnterQuiet(cfg, s.(at := Starting), IDLE);
    EnterQuiet(cfg, s.(at := Top), IDLE);
    ReportFirst(None, []);
    hide Run, Enter, Report;
    assert Do(cfg, s, Compile(IDLE)) == Some(s.(at := Starting));
    assert Do(cfg, s.(at := Starting), Start(IDLE)) == Some(s.(at := Top));
    assert Do(cfg, s.(at := Top), Jobs(IDLE)) == Some(s.(at := Ran));
    RunFour(cfg, s, Compile(IDLE), Start(IDLE), Jobs(IDLE), Check);
    RunOne(cfg, s, [Compile(IDLE), Start(IDLE), Jobs(IDLE), Check], Leave);
    assert [Compile(IDLE), Start(IDLE), Jobs(IDLE), Check] + [Leave] == [Compile(IDLE), Start(IDLE), Jobs(IDLE), Check, Leave];
  }

  /** The loop never sleeps through work: with a job there, a completed call's `finally` is still to
      come, and any call's completion takes this very wait to the loop's next turn. */
  lemma SleeperWakes(cfg: Config, schedule: seq<Action>, call: nat, jobs: nat)
    requires Run(cfg, INITIAL, schedule).Some?
    requires var s := Run(cfg, INITIAL, schedule).value; s.at.Asleep? && !s.at.resolved
    ensures var s := Run(cfg, INITIAL, schedule).value;
      && (exists i | 0 <= i < |s.calls| :: s.calls[i] != Done)
      && (s.jobs > 0 ==> exists i | 0 <= i < |s.calls| :: s.calls[i] == Answered)
      && (call < |s.calls| && s.calls[call] == Answered ==> WakesBy(cfg, s, [Finally(call), Resume]))
      && (call < |s.calls| && s.calls[call] == Running ==> WakesBy(cfg, s, [Answer(call, jobs), Finally(call), Resume]))
  {
    RunKeeps(cfg, schedule);
    var s := Run(cfg, INITIAL, schedule).value;
    var i :| i in s.inflight;
    assert s.calls[i] != Done;
    if call < |s.calls| && s.calls[call] == Answered {
      RunTwo(cfg, s, Finally(call), Resume);
    }
    if call < |s.calls| && s.calls[call] == Running {
      RunThree(cfg, s, Answer(call, jobs), Finally(call), Resume);
    }
  }

  predicate WakesBy(cfg: Config, s: State, steps: seq<Action>) {
    Run(cfg, s, steps).Some? && Run(cfg, s, steps).value.at == Top && Run(cfg, s, steps).value.jobs >= s.jobs
  }

  lemma RunOne(cfg: Config, s: State, schedule: seq<Action>, a: Action)
    ensures Run(cfg, s, schedule + [a]) == if Run(cfg, s, schedule).None? then None else Do(cfg, Run(cfg, s, schedule).value, a)
  {
    hide Do;
    assert (schedule + [a])[..|schedule|] == schedule;
  }

  lemma RunTwo(cfg: Config, s: State, a: Action, b: Action)
    requires Do(cfg, s, a).Some?
    ensures Run(cfg, s, [a, b]) == Do(cfg, Do(cfg, s, a).value, b)
  {
    RunOne(cfg, s, [], a);
    RunOne(cfg, s, [a], b);
    hide Do;
    assert [] + [a] == [a] && [a] + [b] == [a, b];
  }

  lemma RunThree(cfg: Config, s: State, a: Action, b: Action, c: Action)
    requires Do(cfg, s, a).Some? && Do(cfg, Do(cfg, s, a).value, b).Some?
    ensures Run(cfg, s, [a, b, c]) == Do(cfg, Do(cfg, Do(cfg, s, a).value, b).value, c)
  {
    RunTwo(cfg, s, a, b);
    RunOne(cfg, s, [a, b], c);
    hide Do;
    assert [a, b] + [c] == [a, b, c];
  }

  /** The complaint that nothing can settle the snippet's promise is true: no job is left, every
      call has completed, and nothing was reported. */
  lemma NothingCouldSettle(cfg: Config, schedule: seq<Action>)
    requires Run(cfg, INITIAL, schedule).Some?
    ensures var s := Run(cfg, INITIAL, schedule).value;
      s.at.Returned? && s.at.outcome.result == Failed(NothingCanSettle) ==>
        s.jobs == 0 && Reports(schedule) == [] && forall i | 0 <= i < |s.calls| :: s.calls[i] == Done
  {
    RunKeeps(cfg, schedule);
    FirstSettleWins(cfg, schedule);
  }

  /** A timed-out run returns only after every call it dispatched has completed. */
  lemma TimedOutWaits(cfg: Config, schedule: seq<Action>)
    requires Run(cfg, INITIAL, schedule).Some?
    ensures var s := Run(cfg, INITIAL, schedule).value;
      s.at.Returned? && s.at.outcome.timedOut ==> forall i | 0 <= i < |s.calls| :: s.calls[i] == Done
  {
    RunKeeps(cfg, schedule);
  }

  /** What was returned stays: calls that complete later touch neither the outcome nor the guest. */
  lemma ReturnedStays(cfg: Config, s: State, a: Action)
    requires s.at.Returned? && !s.alive && Do(cfg, s, a).Some?
    ensures var t := Do(cfg, s, a).value; t.at == s.at && t.jobs == s.jobs && t.settled == s.settled && t.interrupted == s.interrupted
  {
  }

  // ---------------------------------------------------------------- every run can end

  function Open(calls: seq<Phase>): nat {
    if calls == [] then 0
    else Open(calls[..|calls| - 1]) + match calls[|calls| - 1] case Running => 2 case Answered => 1 case Done => 0
  }

  lemma {:induction false} OpenUpdate(calls: seq<Phase>, i: nat)
    requires i < |calls| && calls[i] != Done
    ensures Open(calls[i := if calls[i] == Running then Answered else Done]) < Open(calls)
  {
    var next := if calls[i] == Running then Answered else Done;
    var n := |calls| - 1;
    if i < n {
      OpenUpdate(calls[..n], i);
      assert calls[i := next][..n] == calls[..n][i := next];
    } else {
      assert calls[i := next][..n] == calls[..n];
    }
  }

  lemma {:induction false} RunConcat(cfg: Config, s: State, first: seq<Action>, more: seq<Action>)
    requires Run(cfg, s, first).Some?
    ensures Run(cfg, s, first + more) == Run(cfg, Run(cfg, s, first).value, more)
    decreases |more|
  {
    hide Do;
    if more == [] {
      assert first + more == first;
    } else {
      var n := |more| - 1;
      RunConcat(cfg, s, first, more[..n]);
      RunOne(cfg, s, first + more[..n], more[n]);
      assert first + more[..n] + [more[n]] == first + more;
    }
  }

  lemma RunFirst(cfg: Config, s: State, a: Action, more: seq<Action>)
    requires Do(cfg, s, a).Some?
    ensures Run(cfg, s, [a] + more) == Run(cfg, Do(cfg, s, a).value, more)
  {
    RunOne(cfg, s, [], a);
    hide Do;
    assert [] + [a] == [a];
    RunConcat(cfg, s, [a], more);
  }

  ghost predicate Ends(cfg: Config, s: State, more: seq<Action>) {
    Run(cfg, s, more).Some? && Run(cfg, s, more).value.at.Returned?
  }

  lemma DrainStep(cfg: Config, s: State) returns (a: Action)
    requires Inv(cfg, s) && s.at.Draining?
    ensures Do(cfg, s, a).Some?
    ensures var t := Do(cfg, s, a).value;
      if a == Drained then t.at.Returned? else t.at.Draining? && Open(t.calls) < Open(s.calls)
  {
    a := Drained;
    if i :| 0 <= i < |s.calls| && s.calls[i] != Done {
      a := if s.calls[i] == Running then Answer(i, 0) else Finally(i);
      OpenUpdate(s.calls, i);
    }
  }

  /** One step closer to the end. */
  lemma EndStep(cfg: Config, s: State, a: Action)
    requires Inv(cfg, s) && !s.at.Returned? && !s.at.Draining? && a == NextStep(cfg, s)
    ensures Do(cfg, s, a).Some?
    ensures var t := Do(cfg, s, a).value; Distance(cfg, t) < Distance(cfg, s)
  {
  }

  function Rank(p: Place): nat {
    match p
    case Compiling => 7 case Starting => 6 case Asleep(_, resolved) => if resolved then 5 else 8
    case Top => 4 case Ran => 2 case Left => 1 case Draining(_) => 0 case Returned(_) => 0
  }

  function Distance(cfg: Config, s: State): nat {
    Rank(s.at) + if s.at == Ran && s.now <= cfg.deadline then 1 else 0
  }

  lemma {:induction false} EndsFrom(cfg: Config, s: State) returns (more: seq<Action>)
    requires Inv(cfg, s)
    ensures Ends(cfg, s, more)
    decreases if s.at.Draining? || s.at.Returned? then 0 else 1, if s.at.Draining? then Open(s.calls) else Distance(cfg, s)
  {
    var a;
    if s.at.Returned? {
      return [];
    } else if s.at.Draining? {
      a := DrainStep(cfg, s);
    } else {
      a := NextStep(cfg, s);
      EndStep(cfg, s, a);
    }
    StepKeeps(cfg, s, a);
    hide Do, Inv, NextStep;
    var t := Do(cfg, s, a).value;
    if t.at.Returned? { more := []; } else { more := EndsFrom(cfg, t); }
    RunFirst(cfg, s, a, more);
    more := [a] + more;
  }

  /** No schedule is a dead end: from wherever it leads, the run can still return, with nothing
      needed from outside but time and the completion of calls in flight. */
  lemma EveryRunCanEnd(cfg: Config, schedule: seq<Action>) returns (more: seq<Action>)
    requires Run(cfg, INITIAL, schedule).Some?
    ensures Run(cfg, INITIAL, schedule + more).Some? && Run(cfg, INITIAL, schedule + more).value.at.Returned?
  {
    RunKeeps(cfg, schedule);
    more := EndsFrom(cfg, Run(cfg, INITIAL, schedule).value);
    RunConcat(cfg, INITIAL, schedule, more);
  }

  function NextStep(cfg: Config, s: State): Action {
    match s.at
    case Compiling => Compile(IDLE)
    case Starting => Start(IDLE)
    case Asleep(_, resolved) => if resolved then Resume else Timer
    case Top => if s.loopError.Some? || s.settled.Some? then Leave else Jobs(IDLE)
    case Ran => if s.now <= cfg.deadline then Tick(cfg.deadline + 1) else Check
    case _ => Leave
  }

  // ---------------------------------------------------------------- past the deadline

  /** How many steps of the loop itself are left at most, once the deadline has passed. */
  function LateRank(p: Place): nat {
    match p
    case Compiling => 6 case Starting => 5 case Asleep(_, resolved) => if resolved then 5 else 6
    case Top => 4 case Ran => 3 case Left => 2 case Draining(_) => 1 case Returned(_) => 0
  }

  /** And steps of the calls dispatched so far. */
  function Weight(s: State): nat {
    LateRank(s.at) + Open(s.calls)
  }

  /** A step that does something: time passing does not, nor a timer that has gone off already. */
  predicate Effective(s: State, a: Action) {
    !a.Tick? && (a.Timer? ==> s.at.Asleep? && !s.at.resolved)
  }

  /** The calls an entry into the guest dispatches. */
  function Sent(a: Action): nat {
    match a
    case Start(work) => work.dispatched
    case Jobs(work) => work.dispatched
    case Crash(work, _) => work.dispatched
    case _ => 0
  }

  function SentAll(schedule: seq<Action>): nat
    decreases |schedule|
  {
    if schedule == [] then 0 else SentAll(schedule[..|schedule| - 1]) + Sent(schedule[|schedule| - 1])
  }

  /** The effective steps along a schedule. */
  function EffectiveSteps(cfg: Config, s: State, schedule: seq<Action>): nat
    decreases |schedule|
  {
    if schedule == [] || Run(cfg, s, schedule).None? then 0
    else
      var before := schedule[..|schedule| - 1];
      EffectiveSteps(cfg, s, before) + if Effective(Run(cfg, s, before).value, schedule[|schedule| - 1]) then 1 else 0
  }

  lemma {:induction false} OpenMore(calls: seq<Phase>, n: nat)
    ensures Open(calls + seq(n, _ => Running)) == Open(calls) + 2 * n
    decreases n
  {
    var more := calls + seq(n, _ => Running);
    if n == 0 {
      assert more == calls;
    } else {
      OpenMore(calls, n - 1);
      assert more[..|more| - 1] == calls + seq(n - 1, _ => Running);
    }
  }

  lemma EntersOpen(cfg: Config, s: State, work: Work)
    ensures Enter(cfg, s, work).Some? ==>
      Open(Enter(cfg, s, work).value.calls) == Open(s.calls) + 2 * work.dispatched && Enter(cfg, s, work).value.now == s.now
  {
    hide Open, Report;
    OpenMore(s.calls, work.dispatched);
  }

  /** Past the deadline every effective step uses up some of the weight, which only dispatching adds to. */
  lemma LateStep(cfg: Config, s: State, a: Action)
    requires s.now > cfg.deadline && Do(cfg, s, a).Some?
    ensures var t := Do(cfg, s, a).value;
      t.now > cfg.deadline && Weight(t) + (if Effective(s, a) then 1 else 0) <= Weight(s) + 2 * Sent(a)
  {
    hide Open, Enter, Report;
    match a
    case Compile(work) => EntersOpen(cfg, s, work);
    case Start(work) => EntersOpen(cfg, s, work);
    case Jobs(work) => EntersOpen(cfg, s, work);
    case Crash(work, _) => EntersOpen(cfg, s, work);
    case Answer(call, _) => OpenUpdate(s.calls, call);
    case Finally(call) => OpenUpdate(s.calls, call);
    case _ =>
  }

  lemma {:induction false} LateRun(cfg: Config, s: State, more: seq<Action>)
    requires s.now > cfg.deadline && Run(cfg, s, more).Some?
    ensures var t := Run(cfg, s, more).value;
      t.now > cfg.deadline && EffectiveSteps(cfg, s, more) + Weight(t) <= Weight(s) + 2 * SentAll(more)
    decreases |more|
  {
    hide Do, Weight, Effective, Sent;
    if more != [] {
      LateRun(cfg, s, more[..|more| - 1]);
      LateStep(cfg, Run(cfg, s, more[..|more| - 1]).value, more[|more| - 1]);
    }
  }

  lemma LateProgress(cfg: Config, s: State) returns (a: Action)
    requires Inv(cfg, s) && s.now > cfg.deadline && !s.at.Returned?
    ensures Do(cfg, s, a).Some? && Effective(s, a)
  {
    if s.at.Draining? {
      a := DrainStep(cfg, s);
      hide Inv;
    } else {
      a := NextStep(cfg, s);
      EndStep(cfg, s, a);
      hide Inv;
    }
  }

  /** Every fair schedule returns. Past the deadline a run that has not returned always has an
      effective step to take: the loop's own, its timer's, or a call in flight completing. And it
      takes no more of them than the computed number, two for each call dispatched on the way added. */
  lemma LateRunReturns(cfg: Config, schedule: seq<Action>, more: seq<Action>)
    requires Run(cfg, INITIAL, schedule).Some? && Run(cfg, INITIAL, schedule).value.now > cfg.deadline
    requires Run(cfg, INITIAL, schedule + more).Some?
    ensures var s, t := Run(cfg, INITIAL, schedule).value, Run(cfg, INITIAL, schedule + more).value;
      && EffectiveSteps(cfg, s, more) + Weight(t) <= Weight(s) + 2 * SentAll(more)
      && (t.at.Returned? || exists a :: Do(cfg, t, a).Some? && Effective(t, a))
  {
    hide Do, Inv, Weight, EffectiveSteps, SentAll, Effective;
    RunConcat(cfg, INITIAL, schedule, more);
    var s, t := Run(cfg, INITIAL, schedule).value, Run(cfg, INITIAL, schedule + more).value;
    LateRun(cfg, s, more);
    RunKeeps(cfg, schedule + more);
    if !t.at.Returned? {
      var a := LateProgress(cfg, t);
    }
  }
}
