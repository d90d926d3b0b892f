/**
 One run of a child process, as `runCommand` settles it
 (scripts/openclaw-cross-os-release-checks.ts): a promise, three timers, and the events
 of the child in any order.
 */
module CommandRunner {
  import opened Common

  /** `timeoutMs` is absent or not finite as None; 0 counts as absent too. */
  datatype Options = Options(timeoutMs: Option<int>, check: Option<bool>, heartbeatSeconds: int) {
    predicate HasTimeout() {
      timeoutMs.Some? && timeoutMs.value != 0
    }

    predicate Checks() {
      check.None? || check.value
    }
  }

  datatype Failure =
    | ProcessError(message: string)
    | TimedOut
    | NotTerminated
    | Failed(exitCode: int, stdout: string, stderr: string)

  datatype Outcome = Resolved(exitCode: int, stdout: string, stderr: string) | Rejected(failure: Failure)

  /** The variables of one call. A timer is live from being set until it fires for the
      last time or is cleared. `settlements` lists every call of `resolve` or `reject`. */
  datatype State = State(
    settlements: seq<Outcome>,
    settled: bool,
    timedOut: bool,
    stdout: string,
    stderr: string,
    timer: bool,
    killWait: bool,
    heartbeat: bool)

  datatype Event =
    | StdoutData(text: string)
    | StderrData(text: string)
    | TimerFires
    | KillWaitFires
    | HeartbeatFires
    | ChildError(message: string)
    | ChildClose(exitCode: Option<int>)

  /** The child may report anything at any time; a timer fires only while live. */
  predicate Enabled(s: State, e: Event) {
    match e
    case TimerFires => s.timer
    case KillWaitFires => s.killWait
    case HeartbeatFires => s.heartbeat
    case _ => true
  }

  function Start(o: Options): State {
    State([], false, false, "", "", o.HasTimeout(), false, o.heartbeatSeconds > 0)
  }

  function Finalized(s: State, outcome: Outcome): State {
    if s.settled then s
    else s.(settled := true, timer := false, killWait := false, heartbeat := false, settlements := s.settlements + [outcome])
  }

  function OnClose(o: Options, s: State, exitCode: Option<int>): Outcome {
    var code := if exitCode.Some? then exitCode.value else 1;
    if s.timedOut then Rejected(TimedOut)
    else if o.Checks() && code != 0 then Rejected(Failed(code, s.stdout, s.stderr))
    else Resolved(code, s.stdout, s.stderr)
  }

  function Step(o: Options, s: State, e: Event): State {
    match e
    case StdoutData(text) => s.(stdout := s.stdout + text)
    case StderrData(text) => s.(stderr := s.stderr + text)
    case TimerFires => s.(timedOut := true, timer := false, killWait := true)
    case KillWaitFires => Finalized(s.(killWait := false), Rejected(NotTerminated))
    case HeartbeatFires => s
    case ChildError(message) => Finalized(s, Rejected(ProcessError(message)))
    case ChildClose(exitCode) => Finalized(s, OnClose(o, s, exitCode))
  }

  /** The state after a trace, newest event last. */
  function Run(o: Options, trace: seq<Event>): State
    decreases |trace|
  {
    if trace == [] then Start(o) else Step(o, Run(o, trace[..|trace| - 1]), trace[|trace| - 1])
  }

  /** Every event of the trace could happen when it did. */
  predicate Possible(o: Options, trace: seq<Event>)
    decreases |trace|
  {
    trace != [] ==>
      var before := trace[..|trace| - 1];
      Possible(o, before) && Enabled(Run(o, before), trace[|trace| - 1])
  }

  // ------------------------------------------------------------------ in every reachable state

  ghost predicate Inv(o: Options, s: State) {
    && |s.settlements| == (if s.settled then 1 else 0)
    && (s.settled ==> !s.timer && !s.killWait && !s.heartbeat)
    && (!s.settled ==> s.heartbeat == (o.heartbeatSeconds > 0)
                       && s.killWait == s.timedOut
                       && s.timer == (o.HasTimeout() && !s.timedOut))
    && (s.timedOut ==> o.HasTimeout() && forall r <- s.settlements :: r.Rejected?)
    && (forall r <- s.settlements :: r.Resolved? && o.Checks() ==> r.exitCode == 0)
  }

  lemma {:induction false} StepKeepsInv(o: Options, s: State, e: Event)
    requires Inv(o, s) && Enabled(s, e)
    ensures Inv(o, Step(o, s, e))
  {
  }

  lemma {:induction false} RunKeepsInv(o: Options, trace: seq<Event>)
    requires Possible(o, trace)
    ensures Inv(o, Run(o, trace))
    decreases |trace|
  {
    if trace == [] {
    } else {
      RunKeepsInv(o, trace[..|trace| - 1]);
      StepKeepsInv(o, Run(o, trace[..|trace| - 1]), trace[|trace| - 1]);
    }
  }

  /** In every possible run the promise is settled at most once, no timer is live once
      it is settled, it is never resolved once the timeout has fired, and under
      the default `check` it is resolved only with exit code 0. */
  lemma {:induction false} SettlesSafely(o: Options, trace: seq<Event>)
    requires Possible(o, trace)
    ensures var s := Run(o, trace);
            && |s.settlements| <= 1
            && (s.settlements != [] ==> !s.timer && !s.killWait && !s.heartbeat)
            && (TimerFires in trace ==> forall r <- s.settlements :: r.Rejected?)
            && (o.check == None ==> forall r <- s.settlements :: r.Resolved? ==> r.exitCode == 0)
  {
    RunKeepsInv(o, trace);
    TimedOutIff(o, trace);
  }

  lemma {:induction false} TimedOutIff(o: Options, trace: seq<Event>)
    ensures Run(o, trace).timedOut <==> TimerFires in trace
    decreases |trace|
  {
    if trace == [] {
    } else {
      TimedOutIff(o, trace[..|trace| - 1]);
      assert trace == trace[..|trace| - 1] + [trace[|trace| - 1]];
    }
  }

  /** A command with a timeout is never left hanging: however the child behaves, one
      or two firings of live timers settle it. */
  lemma {:induction false} NeverHangs(o: Options, trace: seq<Event>)
    requires Possible(o, trace) && o.HasTimeout() && Run(o, trace).settlements == []
    ensures var more := if TimerFires in trace then [KillWaitFires] else [TimerFires, KillWaitFires];
            Possible(o, trace + more) && Run(o, trace + more).settlements == [Rejected(NotTerminated)]
  {
    RunKeepsInv(o, trace);
    TimedOutIff(o, trace);
    if TimerFires in trace {
      OneMore(o, trace, KillWaitFires);
    } else {
      var fired := trace + [TimerFires];
      OneMore(o, trace, TimerFires);
      OneMore(o, fired, KillWaitFires);
      assert trace + [TimerFires, KillWaitFires] == fired + [KillWaitFires];
    }
  }

  lemma {:induction false} OneMore(o: Options, trace: seq<Event>, e: Event)
    ensures Run(o, trace + [e]) == Step(o, Run(o, trace), e)
    ensures Possible(o, trace + [e]) <==> Possible(o, trace) && Enabled(Run(o, trace), e)
  {
    assert (trace + [e])[..|trace|] == trace;
  }

  // ------------------------------------------------------------------- the verdict of a trace

  predicate Terminal(e: Event) {
    e.KillWaitFires? || e.ChildError? || e.ChildClose?
  }

  /** The text of every stdout (or stderr) event, joined in order. */
  function Output(trace: seq<Event>, err: bool): string
    decreases |trace|
  {
    if trace == [] then "" else Output(trace[..|trace| - 1], err) + TextOf(trace[|trace| - 1], err)
  }

  function TextOf(e: Event, err: bool): string {
    if e.StdoutData? && !err then e.text else if e.StderrData? && err then e.text else ""
  }

  lemma {:induction false} StepAddsText(o: Options, s: State, e: Event)
    ensures Step(o, s, e).stdout == s.stdout + TextOf(e, false) && Step(o, s, e).stderr == s.stderr + TextOf(e, true)
  {
  }

  /** What settles the promise, read off the first k events of a trace and the event e
      that comes next: the state machine is not consulted. */
  function VerdictOf(o: Options, past: seq<Event>, e: Event): Outcome
    requires Terminal(e)
  {
    match e
    case ChildError(message) => Rejected(ProcessError(message))
    case KillWaitFires => Rejected(NotTerminated)
    case ChildClose(c) =>
      var code := if c == None then 1 else c.value;
      if TimerFires in past then Rejected(TimedOut)
      else if o.check == Some(false) || code == 0 then Resolved(code, Output(past, false), Output(past, true))
      else Rejected(Failed(code, Output(past, false), Output(past, true)))
  }

  /** Event k is the first that can settle the promise. */
  predicate FirstTerminal(trace: seq<Event>, k: nat) {
    k < |trace| && Terminal(trace[k]) && forall i :: 0 <= i < k ==> !Terminal(trace[i])
  }

  /** The promise is settled by the first terminal event and by nothing after it, with
      the output that came before: an exact verdict for every run. */
  lemma {:induction false} VerdictIsExact(o: Options, trace: seq<Event>)
    ensures (forall e <- trace :: !Terminal(e)) <==> Run(o, trace).settlements == []
    ensures forall k: nat :: FirstTerminal(trace, k) ==>
              Run(o, trace).settlements == [VerdictOf(o, trace[..k], trace[k])]
  {
    UnsettledIff(o, trace);
    forall k: nat | FirstTerminal(trace, k)
      ensures Run(o, trace).settlements == [VerdictOf(o, trace[..k], trace[k])]
    {
      VerdictAt(o, trace, k);
    }
  }

  lemma {:induction false} UnsettledIff(o: Options, trace: seq<Event>)
    ensures (forall e <- trace :: !Terminal(e)) <==> Run(o, trace).settlements == []
    decreases |trace|
  {
    if trace == [] {
    } else {
      var past, e := trace[..|trace| - 1], trace[|trace| - 1];
      assert trace == past + [e];
      UnsettledIff(o, past);
      SettledAsListed(o, past);
      StepSettles(o, Run(o, past), e);
    }
  }

  lemma {:induction false} VerdictAt(o: Options, trace: seq<Event>, k: nat)
    requires FirstTerminal(trace, k)
    ensures Run(o, trace).settlements == [VerdictOf(o, trace[..k], trace[k])]
    decreases |trace|
  {
    var n := |trace| - 1;
    var past, e := trace[..n], trace[n];
    SettledAsListed(o, past);
    if k == n {
      UnsettledIff(o, past);
      StepIsVerdict(o, past, e);
    } else {
      VerdictAt(o, past, k);
      StepSettles(o, Run(o, past), e);
      SliceOfSlice(trace, 0, n, 0, k);
    }
  }

  lemma {:induction false} StepIsVerdict(o: Options, past: seq<Event>, e: Event)
    requires Terminal(e) && Run(o, past).settlements == [] && !Run(o, past).settled
    ensures Step(o, Run(o, past), e).settlements == [VerdictOf(o, past, e)]
  {
    TimedOutIff(o, past);
    OutputIsKept(o, past);
  }

  /** A step settles exactly if it is terminal and nothing settled before it. */
  lemma {:induction false} StepSettles(o: Options, s: State, e: Event)
    requires s.settled <==> s.settlements != []
    ensures Step(o, s, e).settled <==> Step(o, s, e).settlements != []
    ensures s.settled || !Terminal(e) ==> Step(o, s, e).settlements == s.settlements
    ensures !s.settled && Terminal(e) ==> |Step(o, s, e).settlements| == 1
  {
  }

  lemma {:induction false} SettledAsListed(o: Options, trace: seq<Event>)
    ensures Run(o, trace).settled <==> Run(o, trace).settlements != []
    decreases |trace|
  {
    if trace == [] {
    } else {
      SettledAsListed(o, trace[..|trace| - 1]);
      StepSettles(o, Run(o, trace[..|trace| - 1]), trace[|trace| - 1]);
    }
  }

  lemma {:induction false} OutputIsKept(o: Options, trace: seq<Event>)
    ensures Run(o, trace).stdout == Output(trace, false) && Run(o, trace).stderr == Output(trace, true)
    decreases |trace|
  {
    if trace == [] {
    } else {
      OutputIsKept(o, trace[..|trace| - 1]);
      StepAddsText(o, Run(o, trace[..|trace| - 1]), trace[|trace| - 1]);
    }
  }

  // -------------------------------------------------------------------------- the callbacks

  /** The trace is possible and leads to s. */
  ghost predicate Reaches(o: Options, trace: seq<Event>, s: State) {
    Possible(o, trace) && Run(o, trace) == s
  }

  lemma {:induction false} Extend(o: Options, trace: seq<Event>, s: State, e: Event)
    requires Reaches(o, trace, s) && Enabled(s, e)
    ensures Reaches(o, trace + [e], Step(o, s, e)) && Inv(o, s) && Inv(o, Step(o, s, e))
  {
    OneMore(o, trace, e);
    RunKeepsInv(o, trace);
    StepKeepsInv(o, s, e);
  }

  /** The closures of one call and the variables they share. `trace` records the events
      handled so far. */
  class CommandRun {
    const options: Options
    var settlements: seq<Outcome>
    var settled: bool
    var timedOut: bool
    var stdout: string
    var stderr: string
    var timer: bool
    var killWait: bool
    var heartbeat: bool
    ghost var trace: seq<Event>

    ghost function Model(): State
      reads this
    {
      State(settlements, settled, timedOut, stdout, stderr, timer, killWait, heartbeat)
    }

    ghost predicate Valid()
      reads this
    {
      Reaches(options, trace, Model())
    }

    constructor (options: Options)
      ensures Valid() && this.options == options && trace == []
      ensures !settled && !timedOut && timer == options.HasTimeout() && !killWait && heartbeat == (options.heartbeatSeconds > 0)
    {
      this.options := options;
      settlements, settled, timedOut, stdout, stderr := [], false, false, "", "";
      timer, killWait, heartbeat := options.HasTimeout(), false, options.heartbeatSeconds > 0;
      trace := [];
    }

    method ClearTimers()
      modifies this`timer, this`killWait, this`heartbeat
      ensures !timer && !killWait && !heartbeat
    {
      if timer {
        timer := false;
      }
      if killWait {
        killWait := false;
      }
      if heartbeat {
        heartbeat := false;
      }
    }

    method Finalize(outcome: Outcome)
      modifies this`settled, this`settlements, this`timer, this`killWait, this`heartbeat
      ensures Model() == Finalized(old(Model()), outcome)
    {
      if settled {
        return;
      }
      settled := true;
      ClearTimers();
      settlements := settlements + [outcome];
    }

    method OnStdout(text: string)
      requires Valid()
      modifies this
      ensures Valid() && trace == old(trace) + [StdoutData(text)]
    {
      Extend(options, trace, Model(), StdoutData(text));
      stdout := stdout + text;
      trace := trace + [StdoutData(text)];
    }

    method OnStderr(text: string)
      requires Valid()
      modifies this
      ensures Valid() && trace == old(trace) + [StderrData(text)]
    {
      Extend(options, trace, Model(), StderrData(text));
      stderr := stderr + text;
      trace := trace + [StderrData(text)];
    }

    method OnTimer()
      requires Valid() && timer
      modifies this
      ensures Valid() && trace == old(trace) + [TimerFires]
      ensures timedOut && killWait && settlements == old(settlements) == []
    {
      Extend(options, trace, Model(), TimerFires);
      timer := false;
      timedOut := true;
      killWait := true;
      trace := trace + [TimerFires];
    }

    method OnKillWait()
      requires Valid() && killWait
      modifies this
      ensures Valid() && trace == old(trace) + [KillWaitFires]
      ensures settlements == [Rejected(NotTerminated)]
    {
      Extend(options, trace, Model(), KillWaitFires);
      killWait := false;
      Finalize(Rejected(NotTerminated));
      trace := trace + [KillWaitFires];
    }

    method OnError(message: string)
      requires Valid()
      modifies this
      ensures Valid() && trace == old(trace) + [ChildError(message)]
      ensures |settlements| == 1 && old(settlements) <= settlements
    {
      Extend(options, trace, Model(), ChildError(message));
      Finalize(Rejected(ProcessError(message)));
      trace := trace + [ChildError(message)];
    }

    method OnChildClose(exitCode: Option<int>)
      requires Valid()
      modifies this
      ensures Valid() && trace == old(trace) + [ChildClose(exitCode)]
      ensures |settlements| == 1 && old(settlements) <= settlements
    {
      Extend(options, trace, Model(), ChildClose(exitCode));
      var code := if exitCode.Some? then exitCode.value else 1;
      if timedOut {
        Finalize(Rejected(TimedOut));
      } else if (if options.check.Some? then options.check.value else true) && code != 0 {
        Finalize(Rejected(Failed(code, stdout, stderr)));
      } else {
        Finalize(Resolved(code, stdout, stderr));
      }
      trace := trace + [ChildClose(exitCode)];
    }

    /** What a caller of `runCommand` sees, in terms of the events alone. */
    method Outcomes() returns (r: seq<Outcome>)
      requires Valid()
      ensures (forall e <- trace :: !Terminal(e)) <==> r == []
      ensures forall k: nat :: FirstTerminal(trace, k) ==> r == [VerdictOf(options, trace[..k], trace[k])]
    {
      VerdictIsExact(options, trace);
      r := settlements;
    }
  }
}
